/**
 Replay rejection in `PostgresRemoteWorkerService.authenticate`.

 A request is first checked against its signed timestamp and later inserts its nonce; other
 requests and nonce clean-ups run in between.  Both clocks of the source are one clock here.
 */
module RequestReplay {

  /** A signed request; its signature covers all three parts. */
  datatype Request = Request(worker: nat, nonce: nat, timestamp: int)

  datatype Key = Key(worker: nat, nonce: nat)

  const WINDOW_MS: int := 300_000
  const NONCE_MS: int := 600_000

  function KeyOf(r: Request): Key {
    Key(r.worker, r.nonce)
  }

  /** `Math.abs(Date.now() - time) > 300_000` rejects. */
  predicate Timely(r: Request, now: int) {
    -WINDOW_MS <= now - r.timestamp <= WINDOW_MS
  }

  type Nonces = map<Key, int>

  function Retained(nonces: Nonces, now: int): Nonces {
    map k | k in nonces && !(nonces[k] <= now) :: nonces[k]
  }

  /** A request that passed the timestamp and signature checks at `checkedAt`. */
  datatype Checked = Checked(request: Request, checkedAt: int)

  /** A request that was authenticated at `at`. */
  datatype Acceptance = Acceptance(request: Request, checkedAt: int, at: int)

  datatype System = System(now: int, nonces: Nonces, waiting: seq<Checked>, accepted: seq<Acceptance>)

  datatype Event =
    | Advance(elapsed: nat)
    | Check(request: Request)
    | InsertNonce(which: nat)
    | Cleanup

  function Without<T>(s: seq<T>, k: nat): seq<T>
    requires k < |s|
  {
    s[..k] + s[k + 1..]
  }

  function Next(s: System, e: Event): System {
    match e
    case Advance(elapsed) => s.(now := s.now + elapsed)
    case Check(r) => if Timely(r, s.now) then s.(waiting := s.waiting + [Checked(r, s.now)]) else s
    case InsertNonce(k) =>
      if k >= |s.waiting| then s
      else
        var w := s.waiting[k];
        var key := KeyOf(w.request);
        if key in s.nonces then s.(waiting := Without(s.waiting, k))
        else System(s.now, s.nonces[key := s.now + NONCE_MS], Without(s.waiting, k), s.accepted + [Acceptance(w.request, w.checkedAt, s.now)])
    case Cleanup => s.(nonces := Retained(s.nonces, s.now))
  }

  function Run(s: System, es: seq<Event>): System
    decreases |es|
  {
    if es == [] then s else Run(Next(s, es[0]), es[1..])
  }

  function Initial(now: int): System {
    System(now, map[], [], [])
  }

  // ---------------------------------------------------------------- the invariant

  ghost predicate Guarded(s: System, a: Acceptance) {
    s.now < a.at + NONCE_MS ==> KeyOf(a.request) in s.nonces && s.nonces[KeyOf(a.request)] >= a.at + NONCE_MS
  }

  ghost predicate Inv(s: System) {
    && (forall k | 0 <= k < |s.waiting| :: s.waiting[k].checkedAt <= s.now && Timely(s.waiting[k].request, s.waiting[k].checkedAt))
    && (forall k | 0 <= k < |s.accepted| ::
          && s.accepted[k].checkedAt <= s.accepted[k].at <= s.now
          && Timely(s.accepted[k].request, s.accepted[k].checkedAt)
          && Guarded(s, s.accepted[k]))
    && (forall j, k | 0 <= j < k < |s.accepted| && KeyOf(s.accepted[j].request) == KeyOf(s.accepted[k].request) ::
          s.accepted[j].at + NONCE_MS <= s.accepted[k].at)
  }

  lemma StepKeepsInv(s: System, e: Event)
    requires Inv(s)
    ensures Inv(Next(s, e))
  {
    var t := Next(s, e);
    forall k | 0 <= k < |t.accepted| ensures Guarded(t, t.accepted[k]) {
      if k < |s.accepted| {
        assert Guarded(s, s.accepted[k]);
      }
    }
  }

  lemma {:induction false} RunKeepsInv(s: System, es: seq<Event>)
    requires Inv(s)
    ensures Inv(Run(s, es))
    decreases |es|
  {
    if es != [] {
      StepKeepsInv(s, es[0]);
      RunKeepsInv(Next(s, es[0]), es[1..]);
    }
  }

  // ---------------------------------------------------------------- main results

  /**
   In every run, if one request is accepted twice then the second time it spent at least
   `at - timestamp + 300 s` between its timestamp check and the insertion of its nonce, where
   `at` is when it was first accepted.
   */
  lemma ReplayNeedsLatency(now: int, es: seq<Event>, j: nat, k: nat)
    requires j < k < |Run(Initial(now), es).accepted|
    requires Run(Initial(now), es).accepted[j].request == Run(Initial(now), es).accepted[k].request
    ensures var first, second := Run(Initial(now), es).accepted[j], Run(Initial(now), es).accepted[k];
            second.at - second.checkedAt >= first.at - first.request.timestamp + WINDOW_MS >= 0
  {
    RunKeepsInv(Initial(now), es);
  }

  /**
   With prompt insertion, a request first accepted strictly later than 300 s before its
   timestamp is never accepted again, in any run.
   */
  lemma PromptRequestsNeverReplay(now: int, es: seq<Event>, j: nat, k: nat)
    requires j < k < |Run(Initial(now), es).accepted|
    requires var a := Run(Initial(now), es).accepted;
             a[j].at > a[j].request.timestamp - WINDOW_MS && a[k].at == a[k].checkedAt
    ensures Run(Initial(now), es).accepted[j].request != Run(Initial(now), es).accepted[k].request
  {
    if Run(Initial(now), es).accepted[j].request == Run(Initial(now), es).accepted[k].request {
      ReplayNeedsLatency(now, es, j, k);
    }
  }

  /** The run that replays a request accepted at `at` as soon as its nonce is cleaned up. */
  function Replaying(r: Request, at: int): seq<Event>
    requires Timely(r, at)
  {
    [Check(r), InsertNonce(0), Advance(r.timestamp + WINDOW_MS - at), Check(r),
     Advance(at + NONCE_MS - (r.timestamp + WINDOW_MS)), Cleanup, InsertNonce(0)]
  }


  /**
   The bound is exact: whatever the first acceptance time, that much latency suffices for a
   second acceptance. At the very edge of the window, `at == timestamp - 300 s`, none is needed.
   */
  lemma LatencyBoundIsExact(r: Request, at: int)
    requires Timely(r, at)
    ensures var a := Run(Initial(at), Replaying(r, at)).accepted;
            && |a| == 2 && a[0].request == a[1].request == r && a[0].at == at
            && a[1].at - a[1].checkedAt == at - r.timestamp + WINDOW_MS
  {
    var es := Replaying(r, at);
    var key := KeyOf(r);
    var edge := r.timestamp + WINDOW_MS;
    var first := Acceptance(r, at, at);
    var s0 := Initial(at);
    var s1 := System(at, map[], [Checked(r, at)], []);
    var s2 := System(at, map[key := at + NONCE_MS], [], [first]);
    var s3 := s2.(now := edge);
    var s4 := s3.(waiting := [Checked(r, edge)]);
    var s5 := s4.(now := at + NONCE_MS);
    var s6 := s5.(nonces := map[]);
    assert Next(s0, es[0]) == s1;
    assert Next(s1, es[1]) == s2;
    assert Next(s2, es[2]) == s3 && Next(s3, es[3]) == s4 && Next(s4, es[4]) == s5;
    assert Retained(s5.nonces, s5.now) == map[];
    assert Next(s5, es[5]) == s6;
    var s7 := Next(s6, es[6]);
    assert s7.accepted == [first, Acceptance(r, edge, at + NONCE_MS)];
    RunTail(s0, es, 0);
    RunTail(s1, es, 1);
    RunTail(s2, es, 2);
    RunTail(s3, es, 3);
    RunTail(s4, es, 4);
    RunTail(s5, es, 5);
    RunTail(s6, es, 6);
    assert es[0..] == es;
  }

  lemma RunTail(s: System, es: seq<Event>, k: nat)
    requires k < |es|
    ensures Run(s, es[k..]) == Run(Next(s, es[k]), es[k + 1..])
  {
    assert es[k..][1..] == es[k + 1..];
  }

  lemma RunBoth(s: System, a: Event, b: Event)
    ensures Run(s, [a, b]) == Next(Next(s, a), b)
  {
    hide Next;
    assert [a, b][1..] == [b] && [b][1..] == [];
    assert Run(s, [a, b]) == Run(Next(s, a), [a, b][1..]);
    assert Run(Next(s, a), [b]) == Run(Next(Next(s, a), b), [b][1..]);
  }

  /** A request inserted at once is accepted if and only if its timestamp is within 300 s and its worker has no such nonce stored. */
  lemma RequestIsAcceptedIff(s: System, r: Request)
    ensures var t := Run(s, [Check(r), InsertNonce(|s.waiting|)]);
            && t.accepted == (if r.timestamp - 300_000 <= s.now <= r.timestamp + 300_000 && Key(r.worker, r.nonce) !in s.nonces
                              then s.accepted + [Acceptance(r, s.now, s.now)] else s.accepted)
            && t.waiting == s.waiting
  {
    hide Run;
    RunBoth(s, Check(r), InsertNonce(|s.waiting|));
    var c := Next(s, Check(r));
    if Timely(r, s.now) {
      assert c.waiting[|s.waiting|] == Checked(r, s.now);
      assert Without(c.waiting, |s.waiting|) == s.waiting;
    }
  }

  /** An accepted request's nonce is refused, clean-ups included, for exactly ten minutes. */
  lemma NonceIsHeldTenMinutes(s: System, r: Request, elapsed: nat)
    requires r.timestamp - 300_000 <= s.now <= r.timestamp + 300_000 && Key(r.worker, r.nonce) !in s.nonces
    ensures var t := Run(s, [Check(r), InsertNonce(|s.waiting|)]);
            Key(r.worker, r.nonce) in Next(Next(t, Advance(elapsed)), Cleanup).nonces <==> elapsed < 600_000
  {
    hide Run;
    RunBoth(s, Check(r), InsertNonce(|s.waiting|));
    assert Next(s, Check(r)).waiting[|s.waiting|] == Checked(r, s.now);
  }

  // ---------------------------------------------------------------- the object

  /** The `worker_nonces` table. */
  class NonceTable {
    var nonces: Nonces

    constructor ()
      ensures nonces == map[]
    {
      nonces := map[];
    }

    /** The insertion: a primary-key conflict is `REMOTE_WORKER_REPLAY_REJECTED`. */
    method Insert(r: Request, now: int) returns (ok: bool)
      modifies this
      ensures ok == (KeyOf(r) !in old(nonces))
      ensures nonces == if ok then old(nonces)[KeyOf(r) := now + NONCE_MS] else old(nonces)
    {
      ok := KeyOf(r) !in nonces;
      if ok {
        nonces := nonces[KeyOf(r) := now + NONCE_MS];
      }
    }

    method DeleteExpired(now: int)
      modifies this
      ensures nonces == Retained(old(nonces), now)
    {
      nonces := map k | k in nonces && !(nonces[k] <= now) :: nonces[k];
    }
  }
}
