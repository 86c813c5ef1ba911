/**
 Collaborator leases and callback evidence: `OastStore`, and the order in which `OastService`
 validates an identity and later records it.

 Between the validation of an HTTP callback and its record the request body is awaited, so the
 two are separate steps, and a lease can be revoked, expire or be pruned in between.
 */
module OastLease {

  import opened Common

  type LeaseId = nat

  datatype Protocol = Dns | Http | Https

  /** The keyed signature of a callback identity; signatures of different contents differ. */
  datatype Signature = Signature(lease: LeaseId, expires: int, protocol: Protocol)

  /** `pollToken` stands for the stored hash of the token. */
  datatype Lease = Lease(created: int, expires: int, pollToken: nat, protocols: set<Protocol>, revoked: bool)

  datatype Key = Key(lease: LeaseId, protocol: Protocol)

  /** An event's random id and the fingerprints of its source and request. */
  datatype Details = Details(eventId: nat, source: nat, request: nat)

  datatype Evidence = Evidence(observedAt: int, delayMs: int, details: Details, replayRejected: bool)

  datatype Limits = Limits(maxLeaseSeconds: nat, maxEventsPerLease: nat, maxLeases: nat, retentionSeconds: nat)

  type Leases = map<LeaseId, Lease>
  type Events = map<Key, Evidence>

  // ---------------------------------------------------------------- the statements

  function Retained(leases: Leases, now: int, limits: Limits): Leases {
    map id | id in leases && !(leases[id].expires <= now - limits.retentionSeconds * 1000) :: leases[id]
  }

  /** `ON DELETE CASCADE` */
  function Cascade(events: Events, leases: Leases): Events {
    map k | k in events && k.lease in leases :: events[k]
  }

  function Ttl(requested: int, limits: Limits): int {
    var floored := if requested < 30 then 30 else requested;
    if floored < limits.maxLeaseSeconds then floored else limits.maxLeaseSeconds
  }

  function NewLease(now: int, requested: int, protocols: set<Protocol>, pollToken: nat, limits: Limits): Lease {
    Lease(now, now + Ttl(requested, limits) * 1000, pollToken, protocols, false)
  }

  predicate Usable(leases: Leases, id: LeaseId, now: int) {
    id in leases && !leases[id].revoked && now < leases[id].expires
  }

  /** `validateIdentity` */
  predicate ValidIdentity(leases: Leases, id: LeaseId, signature: Signature, protocol: Protocol, now: int) {
    && Usable(leases, id, now) && signature == Signature(id, leases[id].expires, protocol)
    && protocol in leases[id].protocols
  }

  function ProtocolsSeen(events: Events, id: LeaseId): set<Protocol> {
    set k | k in events && k.lease == id :: k.protocol
  }

  datatype Outcome = Outcome(accepted: bool, replay: bool)

  /** The result of `recordTransaction`. */
  function RecordOutcome(leases: Leases, events: Events, key: Key, now: int, limits: Limits): Outcome {
    if !Usable(leases, key.lease, now) then Outcome(false, false)
    else if key in events then Outcome(false, true)
    else if |ProtocolsSeen(events, key.lease)| >= limits.maxEventsPerLease then Outcome(false, false)
    else Outcome(true, false)
  }

  function Observed(now: int, created: int, details: Details): Evidence {
    Evidence(now, if now - created > 0 then now - created else 0, details, false)
  }

  /** The rows after `recordTransaction`. */
  function RecordRows(leases: Leases, events: Events, key: Key, created: int, details: Details, now: int, limits: Limits): Events {
    var o := RecordOutcome(leases, events, key, now, limits);
    if o.accepted then events[key := Observed(now, created, details)]
    else if o.replay && key in events then events[key := events[key].(replayRejected := true)]
    else events
  }

  datatype Status = Active | Expired | Revoked

  function StatusOf(l: Lease, now: int): Status {
    if l.revoked then Revoked else if l.expires <= now then Expired else Active
  }

  // ---------------------------------------------------------------- the system with its history

  /** A callback that passed validation and has not necessarily been recorded. */
  datatype Validated = Validated(key: Key, created: int)

  datatype Mark =
    | Accepted(key: Key, at: int, details: Details)
    | Withdrawn(lease: LeaseId)

  /** `issued` keeps every lease as it was created; `history` keeps acceptances and revocations in order. */
  datatype System = System(
    now: int, limits: Limits, leases: Leases, events: Events,
    validated: seq<Validated>, issued: Leases, history: seq<Mark>)

  datatype Event =
    | Advance(elapsed: nat)
    | Create(id: LeaseId, requested: int, protocols: set<Protocol>, pollToken: nat)
    | Validate(id: LeaseId, signature: Signature, protocol: Protocol)
    | Record(which: nat, details: Details)
    | Revoke(id: LeaseId, pollToken: nat)
    | Prune

  function Pruned(s: System): System {
    var leases := Retained(s.leases, s.now, s.limits);
    s.(leases := leases, events := Cascade(s.events, leases))
  }

  /** One step. Lease ids are random, so a creation never reuses one. */
  function Next(s: System, e: Event): System {
    match e
    case Advance(elapsed) => s.(now := s.now + elapsed)
    case Create(id, requested, protocols, pollToken) =>
      if id in s.issued then s
      else
        var p := Pruned(s);
        if |p.leases| >= s.limits.maxLeases then p
        else
          var l := NewLease(s.now, requested, protocols, pollToken, s.limits);
          p.(leases := p.leases[id := l], issued := s.issued[id := l])
    case Validate(id, signature, protocol) =>
      if ValidIdentity(s.leases, id, signature, protocol, s.now)
      then s.(validated := s.validated + [Validated(Key(id, protocol), s.leases[id].created)]) else s
    case Record(which, details) =>
      if which >= |s.validated| then s
      else
        var v := s.validated[which];
        s.(events := RecordRows(s.leases, s.events, v.key, v.created, details, s.now, s.limits),
           history := if RecordOutcome(s.leases, s.events, v.key, s.now, s.limits).accepted
                      then s.history + [Accepted(v.key, s.now, details)] else s.history)
    case Revoke(id, pollToken) =>
      if id in s.leases && s.leases[id].pollToken == pollToken
      then s.(leases := s.leases[id := s.leases[id].(revoked := true)], history := s.history + [Withdrawn(id)]) else s
    case Prune => Pruned(s)
  }

  function Run(s: System, es: seq<Event>): System
    decreases |es|
  {
    if es == [] then s else Run(Next(s, es[0]), es[1..])
  }

  predicate Initial(s: System) {
    && s.leases == map[] && s.events == map[] && s.validated == [] && s.issued == map[] && s.history == []
    && s.limits.maxLeaseSeconds >= 30
  }

  // ---------------------------------------------------------------- the invariant

  /** At least 30 seconds and at most the configured maximum. */
  predicate Lifetime(l: Lease, limits: Limits) {
    30_000 <= l.expires - l.created <= limits.maxLeaseSeconds * 1000
  }

  ghost predicate LeaseInv(s: System) {
    && s.limits.maxLeaseSeconds >= 30 && |s.leases| <= s.limits.maxLeases
    && (forall id | id in s.leases :: id in s.issued && s.leases[id].(revoked := false) == s.issued[id])
    && (forall id | id in s.issued :: s.issued[id].created <= s.now && Lifetime(s.issued[id], s.limits))
    && (forall id | id in s.issued && id !in s.leases :: s.issued[id].expires + s.limits.retentionSeconds * 1000 <= s.now)
  }

  ghost predicate ValidatedInv(s: System) {
    forall k | 0 <= k < |s.validated| ::
      var v := s.validated[k];
      v.key.lease in s.issued && v.key.protocol in s.issued[v.key.lease].protocols && v.created == s.issued[v.key.lease].created
  }

  ghost predicate Admissible(s: System, key: Key, at: int) {
    && key.lease in s.issued && key.protocol in s.issued[key.lease].protocols
    && s.issued[key.lease].created <= at < s.issued[key.lease].expires && at <= s.now
  }

  ghost predicate Kept(s: System, key: Key, at: int, details: Details) {
    && key.lease in s.issued
    && (key.lease in s.leases ==> key in s.events && s.events[key].observedAt == at && s.events[key].details == details && s.events[key].delayMs == at - s.issued[key.lease].created)
  }

  ghost predicate HistoryInv(s: System) {
    && (forall k | 0 <= k < |s.history| && s.history[k].Accepted? ::
          Admissible(s, s.history[k].key, s.history[k].at) && Kept(s, s.history[k].key, s.history[k].at, s.history[k].details))
    && (forall j, k | 0 <= j < k < |s.history| && s.history[j].Accepted? && s.history[k].Accepted? :: s.history[j].key != s.history[k].key)
    && (forall j, k | 0 <= j < k < |s.history| && s.history[j].Withdrawn? && s.history[k].Accepted? :: s.history[j].lease != s.history[k].key.lease)
    && (forall k | 0 <= k < |s.history| && s.history[k].Withdrawn? :: s.history[k].lease in s.issued)
    && (forall k | 0 <= k < |s.history| && s.history[k].Withdrawn? && s.history[k].lease in s.leases :: s.leases[s.history[k].lease].revoked)
  }

  ghost predicate EventInv(s: System) {
    && (forall k | k in s.events :: k.lease in s.leases)
    && (forall id | id in s.leases :: |ProtocolsSeen(s.events, id)| <= s.limits.maxEventsPerLease)
  }

  ghost predicate Inv(s: System) {
    LeaseInv(s) && ValidatedInv(s) && EventInv(s) && HistoryInv(s)
  }

  // ---------------------------------------------------------------- steps keep the invariant

  lemma SubsetSize<T>(a: set<T>, b: set<T>)
    requires a <= b
    ensures |a| <= |b|
  {
    assert b == a + (b - a);
  }

  lemma PrunedKeepsInv(s: System)
    requires Inv(s)
    ensures Inv(Pruned(s))
  {
    var t := Pruned(s);
    assert t.leases.Keys <= s.leases.Keys;
    SubsetSize(t.leases.Keys, s.leases.Keys);
    forall id | id in t.leases ensures |ProtocolsSeen(t.events, id)| <= s.limits.maxEventsPerLease {
      SubsetSize(ProtocolsSeen(t.events, id), ProtocolsSeen(s.events, id));
    }
    PrunedKeepsHistory(s);
  }

  lemma PrunedKeepsHistory(s: System)
    requires Inv(s)
    ensures HistoryInv(Pruned(s))
  {
    var t := Pruned(s);
    forall k | 0 <= k < |s.history| && s.history[k].Accepted? ensures Kept(t, s.history[k].key, s.history[k].at, s.history[k].details) {
      assert Kept(s, s.history[k].key, s.history[k].at, s.history[k].details);
    }
  }

  function Created(s: System, id: LeaseId, l: Lease): System {
    s.(leases := s.leases[id := l], issued := s.issued[id := l])
  }

  lemma CreateKeepsEvents(s: System, id: LeaseId, l: Lease)
    requires Inv(s) && id !in s.issued
    ensures EventInv(Created(s, id, l))
  {
    assert forall k | k in s.events :: k.lease != id;
    assert ProtocolsSeen(s.events, id) == {};
  }

  lemma CreateKeepsHistory(s: System, id: LeaseId, l: Lease)
    requires Inv(s) && id !in s.issued
    ensures HistoryInv(Created(s, id, l)) && ValidatedInv(Created(s, id, l))
  {
    var t := Created(s, id, l);
    forall k | 0 <= k < |s.history| && s.history[k].Accepted?
      ensures Admissible(t, s.history[k].key, s.history[k].at) && Kept(t, s.history[k].key, s.history[k].at, s.history[k].details)
    {
      assert Kept(s, s.history[k].key, s.history[k].at, s.history[k].details) && Admissible(s, s.history[k].key, s.history[k].at);
    }
  }

  lemma CreateKeepsLeases(s: System, id: LeaseId, l: Lease)
    requires LeaseInv(s) && id !in s.issued && |s.leases| < s.limits.maxLeases
    requires !l.revoked && l.created == s.now && Lifetime(l, s.limits)
    ensures LeaseInv(Created(s, id, l))
  {
    hide Lifetime;
    InsertedSize(s.leases, id, l);
    var t := Created(s, id, l);
    var retention := s.limits.retentionSeconds * 1000;
    forall k | k in t.issued && k !in t.leases ensures t.issued[k].expires + retention <= t.now {
      assert k in s.issued && k !in s.leases;
    }
    forall k | k in t.leases ensures k in t.issued && t.leases[k].(revoked := false) == t.issued[k] {
      assert k != id ==> k in s.leases;
    }
  }

  lemma InsertedSize(leases: Leases, id: LeaseId, l: Lease)
    requires id !in leases
    ensures |leases[id := l]| == |leases| + 1
  {
    assert leases[id := l].Keys == leases.Keys + {id};
  }

  lemma CreateKeepsInv(s: System, id: LeaseId, l: Lease)
    requires Inv(s) && id !in s.issued && |s.leases| < s.limits.maxLeases
    requires !l.revoked && l.created == s.now && Lifetime(l, s.limits)
    ensures Inv(Created(s, id, l))
  {
    hide LeaseInv, EventInv, HistoryInv, ValidatedInv;
    CreateKeepsLeases(s, id, l);
    CreateKeepsEvents(s, id, l);
    CreateKeepsHistory(s, id, l);
  }

  lemma RecordKeepsEvents(s: System, key: Key, created: int, details: Details)
    requires EventInv(s)
    ensures EventInv(s.(events := RecordRows(s.leases, s.events, key, created, details, s.now, s.limits)))
  {
    var events := RecordRows(s.leases, s.events, key, created, details, s.now, s.limits);
    forall id | id in s.leases ensures |ProtocolsSeen(events, id)| <= s.limits.maxEventsPerLease {
      SeenAfter(s.events, key, if key in events then events[key] else Evidence(0, 0, Details(0, 0, 0), false), id);
    }
  }

  /** Writing one row adds its protocol to its own lease and changes no other. */
  lemma SeenAfter(events: Events, key: Key, row: Evidence, id: LeaseId)
    ensures ProtocolsSeen(events[key := row], id) == ProtocolsSeen(events, id) + (if id == key.lease then {key.protocol} else {})
    ensures key in events && id == key.lease ==> key.protocol in ProtocolsSeen(events, id)
  {
    var after := events[key := row];
    forall p ensures p in ProtocolsSeen(after, id) <==> p in ProtocolsSeen(events, id) || (id == key.lease && p == key.protocol) {
      if p in ProtocolsSeen(events, id) {
        assert Key(id, p) in after;
      }
      if id == key.lease && p == key.protocol {
        assert key in after;
      }
    }
  }

  lemma RecordKeepsLeases(s: System, e: Event)
    requires LeaseInv(s) && e.Record?
    ensures LeaseInv(Next(s, e))
  {
  }

  lemma RecordKeepsHistory(s: System, e: Event)
    requires Inv(s) && e.Record? && e.which < |s.validated|
    ensures HistoryInv(Next(s, e))
  {
    hide ProtocolsSeen, EventInv;
    var t := Next(s, e);
    var v := s.validated[e.which];
    assert v.key.lease in s.issued;
    forall k | 0 <= k < |t.history| && t.history[k].Accepted?
      ensures Admissible(t, t.history[k].key, t.history[k].at) && Kept(t, t.history[k].key, t.history[k].at, t.history[k].details)
    {
      if k < |s.history| {
        assert Admissible(s, s.history[k].key, s.history[k].at) && Kept(s, s.history[k].key, s.history[k].at, s.history[k].details);
      }
    }
    if RecordOutcome(s.leases, s.events, v.key, s.now, s.limits).accepted {
      forall j | 0 <= j < |s.history| && s.history[j].Accepted? ensures s.history[j].key != v.key {
        assert Kept(s, s.history[j].key, s.history[j].at, s.history[j].details);
      }
    }
  }

  lemma RevokeKeepsInv(s: System, e: Event)
    requires Inv(s) && e.Revoke?
    ensures Inv(Next(s, e))
  {
    RevokeKeepsLeases(s, e);
    RevokeKeepsHistory(s, e);
  }

  lemma RevokeKeepsLeases(s: System, e: Event)
    requires Inv(s) && e.Revoke?
    ensures LeaseInv(Next(s, e)) && EventInv(Next(s, e)) && ValidatedInv(Next(s, e))
  {
    assert Next(s, e).leases.Keys == s.leases.Keys;
    assert |Next(s, e).leases| == |s.leases|;
  }

  lemma RevokeKeepsHistory(s: System, e: Event)
    requires Inv(s) && e.Revoke?
    ensures HistoryInv(Next(s, e))
  {
    hide EventInv, ValidatedInv, ProtocolsSeen, Lifetime;
    var t := Next(s, e);
    forall k | 0 <= k < |t.history| && t.history[k].Accepted?
      ensures Admissible(t, t.history[k].key, t.history[k].at) && Kept(t, t.history[k].key, t.history[k].at, t.history[k].details)
    {
      assert Admissible(s, s.history[k].key, s.history[k].at) && Kept(s, s.history[k].key, s.history[k].at, s.history[k].details);
    }
  }

  lemma AdvanceKeepsInv(s: System, elapsed: nat)
    requires Inv(s)
    ensures Inv(Next(s, Advance(elapsed)))
  {
    var t := Next(s, Advance(elapsed));
    forall k | 0 <= k < |t.history| && t.history[k].Accepted?
      ensures Admissible(t, t.history[k].key, t.history[k].at) && Kept(t, t.history[k].key, t.history[k].at, t.history[k].details)
    {
      assert Admissible(s, s.history[k].key, s.history[k].at) && Kept(s, s.history[k].key, s.history[k].at, s.history[k].details);
    }
  }

  lemma ValidateKeepsInv(s: System, e: Event)
    requires Inv(s) && e.Validate?
    ensures Inv(Next(s, e))
  {
    var t := Next(s, e);
    forall k | 0 <= k < |t.history| && t.history[k].Accepted?
      ensures Admissible(t, t.history[k].key, t.history[k].at) && Kept(t, t.history[k].key, t.history[k].at, t.history[k].details)
    {
      assert Admissible(s, s.history[k].key, s.history[k].at) && Kept(s, s.history[k].key, s.history[k].at, s.history[k].details);
    }
  }

  lemma StepKeepsInv(s: System, e: Event)
    requires Inv(s)
    ensures Inv(Next(s, e))
  {
    hide LeaseInv, HistoryInv;
    match e
    case Advance(elapsed) => AdvanceKeepsInv(s, elapsed);
    case Create(id, requested, protocols, pollToken) =>
      if id !in s.issued {
        PrunedKeepsInv(s);
        if |Pruned(s).leases| < s.limits.maxLeases {
          TtlIsClamped(s, requested, protocols, pollToken);
          CreateKeepsInv(Pruned(s), id, NewLease(s.now, requested, protocols, pollToken, s.limits));
        }
      }
    case Validate(_, _, _) => ValidateKeepsInv(s, e);
    case Record(which, details) =>
      if which < |s.validated| {
        var v := s.validated[which];
        RecordKeepsEvents(s, v.key, v.created, details);
        RecordKeepsHistory(s, e);
        RecordKeepsLeases(s, e);
      }
    case Revoke(_, _) => RevokeKeepsInv(s, e);
    case Prune => PrunedKeepsInv(s);
  }

  lemma TtlIsClamped(s: System, requested: int, protocols: set<Protocol>, pollToken: nat)
    requires LeaseInv(s)
    ensures Lifetime(NewLease(s.now, requested, protocols, pollToken, s.limits), s.limits)
  {
  }

  lemma {:induction false} RunKeepsInv(s: System, es: seq<Event>)
    requires Inv(s)
    ensures Inv(Run(s, es))
    decreases |es|
  {
    if es != [] {
      StepKeepsInv(s, es[0]);
      RunKeepsInv(Next(s, es[0]), es[1..]);
    }
  }

  // ---------------------------------------------------------------- main results

  /**
   In every run: at most one callback is accepted per lease and protocol, only for a protocol the
   lease was issued for, only from its creation up to but excluding its expiry, and none after
   its revocation, even one that was validated before.
   */
  lemma CallbacksAreAcceptedOnce(s: System, es: seq<Event>)
    requires Initial(s)
    ensures var t := Run(s, es);
            var h := t.history;
            && (forall k | 0 <= k < |h| && h[k].Accepted? :: Admissible(t, h[k].key, h[k].at))
            && (forall j, k | 0 <= j < k < |h| && h[j].Accepted? && h[k].Accepted? :: h[j].key != h[k].key)
            && (forall j, k | 0 <= j < k < |h| && h[j].Withdrawn? && h[k].Accepted? :: h[j].lease != h[k].key.lease)
  {
    RunKeepsInv(s, es);
  }

  /**
   In every run the evidence of an accepted callback, with its time, delay and fingerprints, stays in the
   store until the retention has elapsed after the lease's expiry.
   */
  lemma EvidenceIsRetained(s: System, es: seq<Event>, k: nat)
    requires Initial(s)
    requires var t := Run(s, es); k < |t.history| && t.history[k].Accepted?
    ensures var t := Run(s, es);
            var key, at := t.history[k].key, t.history[k].at;
            && key.lease in t.issued
            && (t.now < t.issued[key.lease].expires + t.limits.retentionSeconds * 1000 ==>
                  && key.lease in t.leases && key in t.events
                  && t.events[key].observedAt == at && t.events[key].details == t.history[k].details && t.events[key].delayMs == at - t.issued[key.lease].created)
  {
    RunKeepsInv(s, es);
    var t := Run(s, es);
    assert Kept(t, t.history[k].key, t.history[k].at, t.history[k].details);
  }

  /** In every run the polling limit never drops evidence, the store never holds more leases than allowed, and lifetimes are within their limits. */
  lemma LimitsHold(s: System, es: seq<Event>, id: LeaseId)
    requires Initial(s)
    ensures var t := Run(s, es);
            && |t.leases| <= t.limits.maxLeases
            && (id in t.issued ==> Lifetime(t.issued[id], t.limits))
            && (id in t.leases ==> |ProtocolsSeen(t.events, id)| <= t.limits.maxEventsPerLease)
  {
    RunKeepsInv(s, es);
  }

  /** Once a poll has shown a lease expired or revoked, no later poll shows it active. */
  lemma {:induction false} StatusNeverReturns(s: System, es: seq<Event>, id: LeaseId)
    requires id in s.issued && (id in s.leases ==> StatusOf(s.leases[id], s.now) != Active)
    ensures var t := Run(s, es);
            && id in t.issued
            && (id in t.leases ==> id in s.leases && StatusOf(t.leases[id], t.now) != Active)
            && (id in t.leases && StatusOf(s.leases[id], s.now) == Revoked ==> StatusOf(t.leases[id], t.now) == Revoked)
    decreases |es|
  {
    if es != [] {
      StatusNeverReturns(Next(s, es[0]), es[1..], id);
    }
  }

  // ---------------------------------------------------------------- what the single operations are for

  lemma RunBoth(s: System, a: Event, b: Event)
    ensures Run(s, [a, b]) == Next(Next(s, a), b)
  {
    hide Next;
    assert [a, b][1..] == [b] && [b][1..] == [];
    assert Run(s, [a, b]) == Run(Next(s, a), [a, b][1..]);
    assert Run(Next(s, a), [b]) == Run(Next(Next(s, a), b), [b][1..]);
  }

  /**
   A callback is accepted if and only if its lease exists, is not revoked and not expired, grants
   the protocol, the signature is the one issued for that protocol, and there is room for a first
   event of it. A repeated one is marked on the evidence and changes nothing else.
   */
  lemma CallbackIsAcceptedIff(s: System, id: LeaseId, signature: Signature, protocol: Protocol, details: Details)
    ensures var t := Run(s, [Validate(id, signature, protocol), Record(|s.validated|, details)]);
            var key := Key(id, protocol);
            var valid := id in s.leases && !s.leases[id].revoked && s.now < s.leases[id].expires && protocol in s.leases[id].protocols
                         && signature == Signature(id, s.leases[id].expires, protocol);
            var room := key !in s.events && |ProtocolsSeen(s.events, id)| < s.limits.maxEventsPerLease;
            && t.history == (if valid && room then s.history + [Accepted(key, s.now, details)] else s.history)
            && (valid && room ==> key in t.events && t.events[key].details == details && t.events[key].observedAt == s.now && !t.events[key].replayRejected)
            && (valid && key in s.events ==> t.events == s.events[key := s.events[key].(replayRejected := true)])
            && t.leases == s.leases
  {
    hide ProtocolsSeen, Run;
    RunBoth(s, Validate(id, signature, protocol), Record(|s.validated|, details));
    var v := Next(s, Validate(id, signature, protocol));
    if ValidIdentity(s.leases, id, signature, protocol, s.now) {
      assert v.validated[|s.validated|] == Validated(Key(id, protocol), s.leases[id].created);
    } else {
      assert v == s;
    }
  }

  /**
   A new lease is usable at once and for exactly the requested time, taken between 30 seconds and
   the configured maximum; it is refused only when that many leases are still retained.
   */
  lemma CreatedLeaseIsUsable(s: System, id: LeaseId, requested: int, protocols: set<Protocol>, pollToken: nat, elapsed: nat)
    requires s.limits.maxLeaseSeconds >= 30 && id !in s.issued && id !in s.leases
    ensures var t := Next(s, Create(id, requested, protocols, pollToken));
            var seconds := if requested < 30 then 30 else if requested > s.limits.maxLeaseSeconds then s.limits.maxLeaseSeconds else requested;
            && (id in t.leases <==> |Next(s, Prune).leases| < s.limits.maxLeases)
            && (id in t.leases ==>
                  && t.leases[id].protocols == protocols && t.leases[id].pollToken == pollToken && t.leases[id].created == s.now
                  && (Usable(t.leases, id, t.now + elapsed) <==> elapsed < seconds * 1000)
                  && StatusOf(t.leases[id], t.now + elapsed) == (if elapsed < seconds * 1000 then Active else Expired))
            && (forall other | other != id :: other in t.leases <==> other in Next(s, Prune).leases)
  {
  }

  /** Pruning deletes exactly the leases whose retention has elapsed, with their events. */
  lemma PruneDeletesOld(s: System, id: LeaseId, key: Key)
    ensures var t := Next(s, Prune);
            && (id in t.leases <==> id in s.leases && s.now < s.leases[id].expires + s.limits.retentionSeconds * 1000)
            && (id in t.leases ==> t.leases[id] == s.leases[id])
            && (key in t.events <==> key in s.events && key.lease in t.leases)
            && (key in t.events ==> t.events[key] == s.events[key]) && t.history == s.history
  {
  }

  ghost predicate RevokedFor(s: System, id: LeaseId, before: nat) {
    && id in s.issued && (id in s.leases ==> s.leases[id].revoked) && before <= |s.history|
    && forall k | before <= k < |s.history| && s.history[k].Accepted? :: s.history[k].key.lease != id
  }

  lemma StepKeepsRevoked(s: System, e: Event, id: LeaseId, before: nat)
    requires RevokedFor(s, id, before)
    ensures RevokedFor(Next(s, e), id, before)
  {
    hide ProtocolsSeen, Ttl;
  }

  lemma {:induction false} RunKeepsRevoked(s: System, es: seq<Event>, id: LeaseId, before: nat)
    requires RevokedFor(s, id, before)
    ensures RevokedFor(Run(s, es), id, before)
    decreases |es|
  {
    hide Next, RevokedFor;
    if es != [] {
      StepKeepsRevoked(s, es[0], id, before);
      RunKeepsRevoked(Next(s, es[0]), es[1..], id, before);
    }
  }

  /**
   Revoking with the right token ends the lease in every continuation: it is revoked while it is
   retained, and no callback for it is accepted. With any other token nothing changes.
   */
  lemma RevocationIsFinal(s: System, id: LeaseId, pollToken: nat, es: seq<Event>)
    requires LeaseInv(s) && id in s.leases
    ensures var t := Next(s, Revoke(id, pollToken));
            if pollToken == s.leases[id].pollToken then
              var u := Run(t, es);
              && (id in u.leases ==> StatusOf(u.leases[id], u.now) == Revoked)
              && forall k | |s.history| < k < |u.history| && u.history[k].Accepted? :: u.history[k].key.lease != id
            else t == s
  {
    var t := Next(s, Revoke(id, pollToken));
    if pollToken == s.leases[id].pollToken {
      RunKeepsRevoked(t, es, id, |s.history| + 1);
    }
  }

  // ---------------------------------------------------------------- the object

  datatype Summary = Summary(protocol: Protocol, evidence: Evidence)

  datatype PollResult = PollResult(status: Status, expires: int, events: seq<Summary>)

  /** `ORDER BY observed_at, id` */
  predicate NotAfter(a: Evidence, b: Evidence) {
    a.observedAt < b.observedAt || (a.observedAt == b.observedAt && a.details.eventId <= b.details.eventId)
  }

  predicate Sorted(list: seq<Summary>) {
    forall j, k | 0 <= j < k < |list| :: NotAfter(list[j].evidence, list[k].evidence)
  }

  /** The entries are rows of the lease's events, at most one per protocol. */
  predicate Lists(events: Events, id: LeaseId, list: seq<Summary>) {
    && (forall k | 0 <= k < |list| :: Key(id, list[k].protocol) in events && events[Key(id, list[k].protocol)] == list[k].evidence)
    && (forall j, k | 0 <= j < k < |list| :: list[j].protocol != list[k].protocol)
  }

  function Listed(list: seq<Summary>): set<Protocol> {
    set k | 0 <= k < |list| :: list[k].protocol
  }

  /** Every entry comes before the rest. */
  predicate Precede(events: Events, id: LeaseId, list: seq<Summary>, rest: set<Protocol>) {
    forall k, p | 0 <= k < |list| && p in rest && Key(id, p) in events :: NotAfter(list[k].evidence, events[Key(id, p)])
  }

  predicate IsFirst(events: Events, id: LeaseId, rest: set<Protocol>, p: Protocol) {
    && p in rest && Key(id, p) in events
    && forall q | q in rest && Key(id, q) in events :: NotAfter(events[Key(id, p)], events[Key(id, q)])
  }

  lemma {:induction false} FirstExists(events: Events, id: LeaseId, rest: set<Protocol>)
    requires rest != {} && forall p | p in rest :: Key(id, p) in events
    ensures exists p :: IsFirst(events, id, rest, p)
    decreases |rest|
  {
    var a :| a in rest;
    var others := rest - {a};
    if others == {} {
      assert rest == {a};
      assert IsFirst(events, id, rest, a);
    } else {
      FirstExists(events, id, others);
      var b :| IsFirst(events, id, others, b);
      assert rest == others + {a};
      if NotAfter(events[Key(id, a)], events[Key(id, b)]) {
        assert IsFirst(events, id, rest, a);
      } else {
        assert IsFirst(events, id, rest, b);
      }
    }
  }

  lemma ListOne(events: Events, id: LeaseId, list: seq<Summary>, rest: set<Protocol>, p: Protocol)
    requires Lists(events, id, list) && Sorted(list) && Listed(list) !! rest && Precede(events, id, list, rest) && IsFirst(events, id, rest, p)
    ensures var more := list + [Summary(p, events[Key(id, p)])];
            && Lists(events, id, more) && Sorted(more) && Precede(events, id, more, rest - {p})
            && Listed(more) == Listed(list) + {p}
  {
    var more := list + [Summary(p, events[Key(id, p)])];
    forall k | 0 <= k < |list| ensures list[k].protocol != p && more[k] == list[k] {
      assert list[k].protocol in Listed(list);
    }
    assert more[|list|].protocol == p;
  }

  lemma NothingListed(events: Events, id: LeaseId, rest: set<Protocol>)
    ensures Lists(events, id, []) && Sorted([]) && Precede(events, id, [], rest) && Listed([]) == {}
  {
  }

  lemma SeenAreKeys(events: Events, id: LeaseId)
    ensures forall p | p in ProtocolsSeen(events, id) :: Key(id, p) in events
  {
  }

  /** The events of a lease, oldest first, at most `limit` of them. */
  method OldestFirst(events: Events, id: LeaseId, limit: nat) returns (list: seq<Summary>)
    ensures Lists(events, id, list) && Sorted(list) && |list| <= limit
    ensures forall j, k | 0 <= j < k < |list| ::
              && list[j].evidence.observedAt <= list[k].evidence.observedAt
              && (list[j].evidence.observedAt == list[k].evidence.observedAt ==> list[j].evidence.details.eventId <= list[k].evidence.details.eventId)
    ensures Precede(events, id, list, ProtocolsSeen(events, id) - Listed(list))
    ensures |ProtocolsSeen(events, id)| <= limit <==> Listed(list) == ProtocolsSeen(events, id)
  {
    hide Lists, Sorted, Precede, Listed, NotAfter, ProtocolsSeen;
    var seen := ProtocolsSeen(events, id);
    var rest := seen;
    list := [];
    NothingListed(events, id, rest);
    SeenAreKeys(events, id);
    while rest != {} && |list| < limit
      invariant Lists(events, id, list) && Sorted(list) && Precede(events, id, list, rest)
      invariant Listed(list) !! rest && Listed(list) + rest == seen && |list| + |rest| == |seen|
      invariant |list| <= limit
      decreases rest
    {
      FirstExists(events, id, rest);
      var p :| p in rest && IsFirst(events, id, rest, p);
      ListOne(events, id, list, rest, p);
      list, rest := list + [Summary(p, events[Key(id, p)])], rest - {p};
    }
    assert seen - Listed(list) == rest;
    SortedByTime(list);
  }

  lemma SortedByTime(list: seq<Summary>)
    requires Sorted(list)
    ensures forall j, k | 0 <= j < k < |list| ::
              && list[j].evidence.observedAt <= list[k].evidence.observedAt
              && (list[j].evidence.observedAt == list[k].evidence.observedAt ==> list[j].evidence.details.eventId <= list[k].evidence.details.eventId)
  {
  }

  /** The store over its two tables. A clock reading comes with every call. */
  class Store {
    const limits: Limits
    var leases: Leases
    var events: Events

    constructor (limits: Limits)
      ensures this.limits == limits && leases == map[] && events == map[]
    {
      this.limits, leases, events := limits, map[], map[];
    }

    method PruneExpired(now: int)
      modifies this
      ensures leases == Retained(old(leases), now, limits) && events == Cascade(old(events), leases)
    {
      leases := map id | id in leases && !(leases[id].expires <= now - limits.retentionSeconds * 1000) :: leases[id];
      events := map k | k in events && k.lease in leases :: events[k];
    }

    /** `None` is `OAST_LEASE_LIMIT`. */
    method CreateLease(id: LeaseId, requested: int, protocols: set<Protocol>, pollToken: nat, now: int) returns (lease: Option<Lease>)
      requires id !in leases
      modifies this
      ensures var kept := Retained(old(leases), now, limits);
              && events == Cascade(old(events), kept)
              && (lease.None? <==> |kept| >= limits.maxLeases)
              && (lease.Some? ==> lease.value == NewLease(now, requested, protocols, pollToken, limits))
              && leases == (if lease.None? then kept else kept[id := lease.value])
    {
      PruneExpired(now);
      if |leases| >= limits.maxLeases {
        return None;
      }
      var ttl := if requested < 30 then 30 else requested;
      if ttl >= limits.maxLeaseSeconds {
        ttl := limits.maxLeaseSeconds;
      }
      var row := Lease(now, now + ttl * 1000, pollToken, protocols, false);
      leases := leases[id := row];
      return Some(row);
    }

    method ValidateIdentity(id: LeaseId, signature: Signature, protocol: Protocol, now: int) returns (row: Option<Lease>)
      ensures row == if ValidIdentity(leases, id, signature, protocol, now) then Some(leases[id]) else None
    {
      if id !in leases || leases[id].revoked || leases[id].expires <= now || signature != Signature(id, leases[id].expires, protocol) {
        return None;
      }
      return if protocol in leases[id].protocols then Some(leases[id]) else None;
    }

    method RecordCallback(key: Key, created: int, details: Details, now: int) returns (o: Outcome)
      modifies this`events
      ensures o == RecordOutcome(leases, old(events), key, now, limits)
      ensures events == RecordRows(leases, old(events), key, created, details, now, limits)
    {
      if key.lease !in leases || leases[key.lease].revoked || leases[key.lease].expires <= now {
        return Outcome(false, false);
      }
      if key in events {
        events := events[key := events[key].(replayRejected := true)];
        return Outcome(false, true);
      }
      if |ProtocolsSeen(events, key.lease)| >= limits.maxEventsPerLease {
        return Outcome(false, false);
      }
      events := events[key := Evidence(now, if now - created > 0 then now - created else 0, details, false)];
      return Outcome(true, false);
    }

    /** Evidence oldest first, up to the limit. */
    method Poll(id: LeaseId, pollToken: nat, now: int) returns (r: Option<PollResult>)
      ensures r.Some? <==> id in leases && leases[id].pollToken == pollToken
      ensures r.Some? ==> r.value.status == StatusOf(leases[id], now) && r.value.expires == leases[id].expires
      ensures r.Some? ==> Lists(events, id, r.value.events) && Sorted(r.value.events)
      ensures r.Some? ==> Precede(events, id, r.value.events, ProtocolsSeen(events, id) - Listed(r.value.events))
      ensures r.Some? ==> (|ProtocolsSeen(events, id)| <= limits.maxEventsPerLease <==> Listed(r.value.events) == ProtocolsSeen(events, id))
      ensures r.Some? ==> |r.value.events| <= limits.maxEventsPerLease
    {
      if id !in leases || leases[id].pollToken != pollToken {
        return None;
      }
      var status := if leases[id].revoked then Revoked else if leases[id].expires <= now then Expired else Active;
      var list := OldestFirst(events, id, limits.maxEventsPerLease);
      return Some(PollResult(status, leases[id].expires, list));
    }

    method RevokeLease(id: LeaseId, pollToken: nat) returns (ok: bool)
      modifies this`leases
      ensures ok == (id in old(leases) && old(leases)[id].pollToken == pollToken)
      ensures leases == if ok then old(leases)[id := old(leases)[id].(revoked := true)] else old(leases)
    {
      ok := id in leases && leases[id].pollToken == pollToken;
      if ok {
        leases := leases[id := leases[id].(revoked := true)];
      }
    }
  }
}
