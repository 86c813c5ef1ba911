/**
 The leader lease with fencing tokens: `PostgresLeaderElection` and `fencedTransaction`.

 One row of `scheduler_runs` is shared by any number of instances.  A tick is three steps, because
 the local deadline is counted from before the query is sent: the instance sends, the statement
 executes at some later moment, and the reply is processed later still.  The statement computes the
 new expiry before it can lock the row, so at execution that stamp has some age.  A tick can also
 fail on the client; its statement may then never execute, or execute at any later moment with a
 stamp from any time since the tick began.  Instances have their own monotonic clocks, which run at
 the rate of the database clock but are offset from it by an arbitrary `skew`.
 */
module LeaderElection {

  type Instance = nat

  type Span = x: real | x >= 0.0

  import opened Common

  /** The `scheduler_runs` row of one scheduler key. */
  datatype Row = Row(instance: Instance, fence: nat, expires: real)

  /** What `RETURNING fencing_token` yields: no row, or the token now on the row. */
  datatype Reply = Refused | Granted(fence: nat)

  /** The tick in progress, if any. `ticking` in the source is `!call.Idle?`. */
  datatype Call =
    | Idle
    | Sent(started: real)
    | Answered(started: real, reply: Reply)

  /** One instance: its clock offset and lease length, its fields, and when its lost statements were sent. */
  datatype Node = Node(
    skew: real, leaseMs: Span,
    held: bool, deadline: real, fencingToken: nat, call: Call, stopped: bool,
    lost: seq<real>)

  const MAX_SAFE_INTEGER: nat := 9007199254740991

  /** One entry of the history of granted tokens. */
  datatype Issue = Issue(fence: nat, instance: Instance)

  /**
   The whole system. `rowLock` is the token of the fenced transaction that holds the row
   `FOR UPDATE`. `issued` and `work` are histories: every grant, and the token of every
   committed fenced transaction.
   */
  datatype Cluster = Cluster(
    now: real, nodes: map<Instance, Node>, row: Option<Row>, rowLock: Option<nat>,
    issued: seq<Issue>, work: seq<nat>)

  // ---------------------------------------------------------------- local steps of one instance

  function LocalNow(n: Node, now: real): real {
    now + n.skew
  }

  /** `isLeader()` on the instance's own clock. */
  predicate IsLeader(n: Node, now: real) {
    !n.stopped && n.held && LocalNow(n, now) < n.deadline
  }

  function TickSent(n: Node, now: real): Node {
    if n.call != Idle || n.stopped then n else n.(call := Sent(LocalNow(n, now)))
  }

  /**
   The reply is processed. `caught` says that the exception for a token beyond the safe integers
   is caught by the timer (it is not on the very first tick, where `held` stays set).
   */
  function TickReceived(n: Node, caught: bool): Node {
    match n.call
    case Answered(started, Refused) => n.(held := false, call := Idle)
    case Answered(started, Granted(fence)) =>
      n.(held := fence <= MAX_SAFE_INTEGER || !caught, deadline := started + n.leaseMs, fencingToken := fence, call := Idle)
    case _ => n
  }

  /** The tick throws: the reply is lost, and an unexecuted statement may still execute later. */
  function TickFailed(n: Node): Node {
    if n.call == Idle then n
    else n.(held := false, call := Idle, lost := if n.call.Sent? then n.lost + [n.call.started] else n.lost)
  }

  function Halted(n: Node): Node {
    n.(stopped := true, held := false)
  }

  // ---------------------------------------------------------------- statements on the row

  predicate Takeable(row: Option<Row>, i: Instance, now: real) {
    row.None? || row.value.expires < now || row.value.instance == i
  }

  function NextFence(row: Option<Row>, i: Instance, now: real): nat {
    match row
    case None => 1
    case Some(r) => if r.instance == i && r.expires > now then r.fence else r.fence + 1
  }

  /** The upsert of a tick; `expires` was computed before the conflicting row could be locked. */
  function Upsert(row: Option<Row>, i: Instance, now: real, expires: real): Option<Row> {
    if Takeable(row, i, now) then Some(Row(i, NextFence(row, i, now), expires)) else row
  }

  function UpsertReply(row: Option<Row>, i: Instance, now: real): Reply {
    if Takeable(row, i, now) then Granted(NextFence(row, i, now)) else Refused
  }

  /** The update of `shutdown`: expire the row if it still carries this holder and token. */
  function ReleaseRow(row: Option<Row>, i: Instance, fence: nat, now: real): Option<Row> {
    if row.Some? && row.value.instance == i && row.value.fence == fence then Some(row.value.(expires := now)) else row
  }

  predicate FenceHolds(row: Option<Row>, i: Instance, fence: nat, now: real) {
    row.Some? && row.value.instance == i && row.value.fence == fence && row.value.expires > now
  }

  // ---------------------------------------------------------------- the system

  datatype Event =
    | Advance(elapsed: Span)
    | Send(i: Instance)
    | Execute(i: Instance, stampAge: Span)
    | Receive(i: Instance, caught: bool)
    | Fail(i: Instance)
    | ExecuteLost(i: Instance, which: nat, stampAge: Span)
    | Stop(i: Instance)
    | Release(i: Instance)
    | BeginFenced(i: Instance, fence: nat, readAge: Span)
    | EndFenced(commit: bool)

  function With(s: Cluster, i: Instance, n: Node): Cluster {
    s.(nodes := s.nodes[i := n])
  }

  /** The upsert by `i` with an expiry counted from `stamp`, recorded in the history. */
  function Grant(s: Cluster, i: Instance, stamp: real): Cluster
    requires i in s.nodes
  {
    if Takeable(s.row, i, s.now) then
      s.(row := Upsert(s.row, i, s.now, stamp + s.nodes[i].leaseMs),
         issued := s.issued + [Issue(NextFence(s.row, i, s.now), i)])
    else s
  }

  predicate Enabled(s: Cluster, e: Event) {
    match e
    case Advance(_) => true
    case Send(i) => i in s.nodes
    case Execute(i, age) =>
      // The statement was sent, the row is not locked, and its stamp is not older than the tick.
      i in s.nodes && s.rowLock.None? && s.nodes[i].call.Sent? && s.nodes[i].call.started <= LocalNow(s.nodes[i], s.now - age)
    case Receive(i, _) => i in s.nodes
    case Fail(i) => i in s.nodes
    case ExecuteLost(i, which, age) =>
      // Nothing orders a lost statement after the instance's later ticks.
      i in s.nodes && s.rowLock.None? && which < |s.nodes[i].lost| && s.nodes[i].lost[which] <= LocalNow(s.nodes[i], s.now - age)
    case Stop(i) => i in s.nodes
    case Release(i) => i in s.nodes && s.nodes[i].stopped && s.rowLock.None?
    case BeginFenced(i, fence, readAge) =>
      // The expiry was compared before the wait for the row lock.
      s.rowLock.None? && FenceHolds(s.row, i, fence, s.now - readAge)
    case EndFenced(_) => s.rowLock.Some?
  }

  /** One step. An event that cannot happen in `s` leaves it unchanged. */
  function Next(s: Cluster, e: Event): Cluster {
    if !Enabled(s, e) then s else
    match e
    case Advance(elapsed) => s.(now := s.now + elapsed)
    case Send(i) => With(s, i, TickSent(s.nodes[i], s.now))
    case Execute(i, age) =>
      With(Grant(s, i, s.now - age), i, s.nodes[i].(call := Answered(s.nodes[i].call.started, UpsertReply(s.row, i, s.now))))
    case Receive(i, caught) => With(s, i, TickReceived(s.nodes[i], caught))
    case Fail(i) => With(s, i, TickFailed(s.nodes[i]))
    case ExecuteLost(i, which, age) =>
      With(Grant(s, i, s.now - age), i, s.nodes[i].(lost := s.nodes[i].lost[..which] + s.nodes[i].lost[which + 1..]))
    case Stop(i) => With(s, i, Halted(s.nodes[i]))
    case Release(i) => s.(row := ReleaseRow(s.row, i, s.nodes[i].fencingToken, s.now))
    case BeginFenced(_, fence, _) => s.(rowLock := Some(fence))
    case EndFenced(commit) => s.(rowLock := None, work := if commit then s.work + [s.rowLock.value] else s.work)
  }

  function Run(s: Cluster, es: seq<Event>): Cluster
    decreases |es|
  {
    if es == [] then s else Run(Next(s, es[0]), es[1..])
  }

  /** Instances that have not ticked yet, and no row. */
  ghost predicate Initial(s: Cluster) {
    && s.row.None? && s.rowLock.None? && s.issued == [] && s.work == []
    && forall i | i in s.nodes :: !s.nodes[i].held && s.nodes[i].call == Idle && s.nodes[i].lost == []
  }

  // ---------------------------------------------------------------- the invariant

  /** The row outlives a deadline that is still in the future, and still carries the token. */
  ghost predicate Backed(s: Cluster, i: Instance, localDeadline: real, fence: nat)
    requires i in s.nodes
  {
    LocalNow(s.nodes[i], s.now) < localDeadline ==>
      && s.row.Some? && s.row.value.instance == i && s.row.value.fence == fence
      && localDeadline <= LocalNow(s.nodes[i], s.row.value.expires)
  }

  ghost predicate NodeInv(s: Cluster, i: Instance)
    requires i in s.nodes
  {
    var n := s.nodes[i];
    && (n.held ==> n.deadline <= LocalNow(n, s.now) + n.leaseMs)
    && (n.held && n.call.Sent? ==> n.deadline <= n.call.started + n.leaseMs)
    && (n.held && !n.stopped ==> Backed(s, i, n.deadline, n.fencingToken))
    && (!n.call.Idle? ==> n.call.started <= LocalNow(n, s.now))
    && (n.call.Answered? && n.call.reply.Granted? && !n.stopped ==>
          Backed(s, i, n.call.started + n.leaseMs, n.call.reply.fence))
  }

  ghost predicate HistoryInv(s: Cluster) {
    && (s.row.None? <==> s.issued == [])
    && (s.row.Some? ==> s.issued[|s.issued| - 1] == Issue(s.row.value.fence, s.row.value.instance))
    && (forall j, k | 0 <= j <= k < |s.issued| :: s.issued[j].fence <= s.issued[k].fence)
    && (forall j, k | 0 <= j <= k < |s.issued| && s.issued[j].fence == s.issued[k].fence :: s.issued[j].instance == s.issued[k].instance)
  }

  ghost predicate WorkInv(s: Cluster) {
    && (s.row.None? ==> s.work == [] && s.rowLock.None?)
    && (s.rowLock.Some? ==> s.rowLock.value == s.row.value.fence)
    && (forall k | 0 <= k < |s.work| :: s.row.Some? && s.work[k] <= s.row.value.fence)
    && (forall j, k | 0 <= j <= k < |s.work| :: s.work[j] <= s.work[k])
  }

  /** What every run keeps. */
  ghost predicate TokenInv(s: Cluster) {
    HistoryInv(s) && WorkInv(s)
  }

  /** What every orderly run keeps. */
  ghost predicate Inv(s: Cluster) {
    (forall i | i in s.nodes :: NodeInv(s, i)) && TokenInv(s)
  }

  /** The deadline that an unstopped instance has, or will have once it processes the grant it was sent. */
  predicate Claims(n: Node, now: real, localDeadline: real) {
    && !n.stopped && LocalNow(n, now) < localDeadline
    && ((n.held && localDeadline == n.deadline)
        || (n.call.Answered? && n.call.reply.Granted? && localDeadline == n.call.started + n.leaseMs))
  }

  /** An expiry counted from `stamp` ends before a deadline the instance claims. */
  ghost predicate Undercuts(n: Node, now: real, stamp: real) {
    exists localDeadline :: Claims(n, now, localDeadline) && LocalNow(n, stamp) + n.leaseMs < localDeadline
  }

  /** A lost statement executes with a stamp older than the grant its instance relies on. */
  ghost predicate Early(s: Cluster, e: Event) {
    e.ExecuteLost? && Enabled(s, e) && Undercuts(s.nodes[e.i], s.now, s.now - e.stampAge)
  }

  /** A run in which no lost statement executes early. */
  ghost predicate Orderly(s: Cluster, es: seq<Event>)
    decreases |es|
  {
    es == [] || (!Early(s, es[0]) && Orderly(Next(s, es[0]), es[1..]))
  }

  /** A grant keeps every other instance's claim: it is not live, or the row was refused. */
  lemma GrantKeepsNodes(s: Cluster, i: Instance, stamp: real)
    requires Inv(s) && i in s.nodes && stamp <= s.now && !Undercuts(s.nodes[i], s.now, stamp)
    ensures forall j | j in s.nodes :: NodeInv(Grant(s, i, stamp), j)
  {
    var n := s.nodes[i];
    assert !(Claims(n, s.now, n.deadline) && LocalNow(n, stamp) + n.leaseMs < n.deadline);
    if n.call.Answered? {
      var next := n.call.started + n.leaseMs;
      assert !(Claims(n, s.now, next) && LocalNow(n, stamp) + n.leaseMs < next);
    }
    forall j | j in s.nodes ensures NodeInv(Grant(s, i, stamp), j) {
      assert NodeInv(s, j);
    }
  }

  lemma GrantKeepsHistory(s: Cluster, i: Instance, stamp: real)
    requires HistoryInv(s) && WorkInv(s) && s.rowLock.None? && i in s.nodes
    ensures HistoryInv(Grant(s, i, stamp)) && WorkInv(Grant(s, i, stamp))
  {
    if s.row.Some? {
      assert s.issued[|s.issued| - 1].fence == s.row.value.fence;
    }
  }

  /** An instance's claim depends only on its own node, the row and the clock. */
  lemma NodeFrame(s: Cluster, t: Cluster, j: Instance)
    requires j in s.nodes && NodeInv(s, j)
    requires j in t.nodes && t.nodes[j] == s.nodes[j] && t.row == s.row && t.now == s.now
    ensures NodeInv(t, j)
  {
  }

  lemma ExecuteKeepsNodes(s: Cluster, e: Event, j: Instance)
    requires Inv(s) && Enabled(s, e) && e.Execute? && j in s.nodes
    ensures NodeInv(Next(s, e), j)
  {
    var stamp := s.now - e.stampAge;
    assert NodeInv(s, e.i);
    GrantKeepsNodes(s, e.i, stamp);
    if j != e.i {
      NodeFrame(Grant(s, e.i, stamp), Next(s, e), j);
    }
  }

  lemma ExecuteLostKeepsNodes(s: Cluster, e: Event, j: Instance)
    requires Inv(s) && Enabled(s, e) && e.ExecuteLost? && !Early(s, e) && j in s.nodes
    ensures NodeInv(Next(s, e), j)
  {
    var stamp := s.now - e.stampAge;
    assert NodeInv(s, e.i);
    GrantKeepsNodes(s, e.i, stamp);
    if j != e.i {
      NodeFrame(Grant(s, e.i, stamp), Next(s, e), j);
    }
  }

  /** The five local steps of an instance keep its own claim. */
  lemma LocalStepKeepsNode(s: Cluster, i: Instance, n: Node)
    requires i in s.nodes && NodeInv(s, i)
    requires n == TickSent(s.nodes[i], s.now) || n == TickReceived(s.nodes[i], true) || n == TickReceived(s.nodes[i], false) ||
             n == TickFailed(s.nodes[i]) || n == Halted(s.nodes[i])
    ensures NodeInv(With(s, i, n), i)
  {
  }

  lemma OtherStepKeepsNodes(s: Cluster, e: Event, j: Instance)
    requires Inv(s) && Enabled(s, e) && !e.Execute? && !e.ExecuteLost? && j in s.nodes
    ensures NodeInv(Next(s, e), j)
  {
    assert NodeInv(s, j);
    if e.Advance? || e.Release? {
    } else if !e.EndFenced? && !e.BeginFenced? && e.i == j {
      LocalStepKeepsNode(s, j, Next(s, e).nodes[j]);
    } else {
      NodeFrame(s, Next(s, e), j);
    }
  }

  lemma StepKeepsTokens(s: Cluster, e: Event)
    requires TokenInv(s)
    ensures TokenInv(Next(s, e))
  {
    hide HistoryInv, WorkInv;
    if Enabled(s, e) {
      match e
      case Execute(i, age) => GrantKeepsHistory(s, i, s.now - age); UntouchedHistory(Grant(s, i, s.now - age), Next(s, e));
      case ExecuteLost(i, _, age) => GrantKeepsHistory(s, i, s.now - age); UntouchedHistory(Grant(s, i, s.now - age), Next(s, e));
      case Release(_) => RowStepKeepsHistory(s, e);
      case BeginFenced(_, _, _) => RowStepKeepsHistory(s, e);
      case EndFenced(_) => RowStepKeepsHistory(s, e);
      case _ => UntouchedHistory(s, Next(s, e));
    }
  }

  lemma UntouchedHistory(s: Cluster, t: Cluster)
    requires HistoryInv(s) && WorkInv(s) && t.row == s.row && t.issued == s.issued && t.work == s.work && t.rowLock == s.rowLock
    ensures HistoryInv(t) && WorkInv(t)
  {
  }

  lemma RowStepKeepsHistory(s: Cluster, e: Event)
    requires HistoryInv(s) && WorkInv(s) && Enabled(s, e) && (e.Release? || e.BeginFenced? || e.EndFenced?)
    ensures HistoryInv(Next(s, e)) && WorkInv(Next(s, e))
  {
  }

  lemma StepKeepsInv(s: Cluster, e: Event)
    requires Inv(s) && !Early(s, e)
    ensures Inv(Next(s, e))
  {
    StepKeepsTokens(s, e);
    if Enabled(s, e) {
      forall j | j in s.nodes ensures NodeInv(Next(s, e), j) {
        if e.Execute? {
          ExecuteKeepsNodes(s, e, j);
        } else if e.ExecuteLost? {
          ExecuteLostKeepsNodes(s, e, j);
        } else {
          OtherStepKeepsNodes(s, e, j);
        }
      }
    }
  }

  lemma {:induction false} RunKeepsInv(s: Cluster, es: seq<Event>)
    requires Inv(s) && Orderly(s, es)
    ensures Inv(Run(s, es))
    decreases |es|
  {
    if es != [] {
      StepKeepsInv(s, es[0]);
      RunKeepsInv(Next(s, es[0]), es[1..]);
    }
  }

  lemma {:induction false} RunKeepsTokens(s: Cluster, es: seq<Event>)
    requires TokenInv(s)
    ensures TokenInv(Run(s, es))
    decreases |es|
  {
    if es != [] {
      StepKeepsTokens(s, es[0]);
      RunKeepsTokens(Next(s, es[0]), es[1..]);
    }
  }

  // ---------------------------------------------------------------- tokens, in every run

  /** Tokens are issued in nondecreasing order and no token goes to two instances. */
  lemma TokensNeverShared(s: Cluster, es: seq<Event>)
    requires Initial(s)
    ensures var h := Run(s, es).issued;
            && (forall j, k | 0 <= j <= k < |h| :: h[j].fence <= h[k].fence)
            && (forall j, k | 0 <= j < |h| && 0 <= k < |h| && h[j].fence == h[k].fence :: h[j].instance == h[k].instance)
  {
    RunKeepsTokens(s, es);
  }

  /**
   A grant repeats the previous token exactly when the same holder renews before expiry; a new
   holder, a lapsed one and a released one get a token above every earlier one.
   */
  lemma GrantIsFreshUnlessRenewal(s: Cluster, es: seq<Event>, i: Instance)
    requires Initial(s)
    requires var t := Run(s, es); i in t.nodes && Takeable(t.row, i, t.now)
    ensures var t := Run(s, es);
            var fence := NextFence(t.row, i, t.now);
            if t.row.Some? && t.row.value.instance == i && t.now < t.row.value.expires
            then t.issued != [] && t.issued[|t.issued| - 1] == Issue(fence, i)
            else forall k | 0 <= k < |t.issued| :: t.issued[k].fence < fence
  {
    RunKeepsTokens(s, es);
  }

  lemma StepKeepsFence(s: Cluster, e: Event)
    requires TokenInv(s) && s.row.Some?
    ensures var t := Next(s, e);
            && t.row.Some? && s.row.value.fence <= t.row.value.fence
            && |s.work| <= |t.work| && t.work[..|s.work|] == s.work
            && (forall k | |s.work| <= k < |t.work| :: s.row.value.fence <= t.work[k])
  {
  }

  /** Once a token exists, no run ever again commits fenced work with a lower one. */
  lemma {:induction false} OldTokensNeverCommit(s: Cluster, es: seq<Event>)
    requires TokenInv(s) && s.row.Some?
    ensures var t := Run(s, es);
            && t.row.Some? && s.row.value.fence <= t.row.value.fence
            && |s.work| <= |t.work| && t.work[..|s.work|] == s.work
            && (forall k | |s.work| <= k < |t.work| :: s.row.value.fence <= t.work[k])
    decreases |es|
  {
    if es != [] {
      var m := Next(s, es[0]);
      StepKeepsTokens(s, es[0]);
      StepKeepsFence(s, es[0]);
      OldTokensNeverCommit(m, es[1..]);
      var t := Run(m, es[1..]);
      forall k | 0 <= k < |s.work| ensures t.work[k] == s.work[k] {
        assert m.work[..|s.work|][k] == s.work[k] && t.work[..|m.work|][k] == m.work[k];
      }
      forall k | |s.work| <= k < |t.work| ensures s.row.value.fence <= t.work[k] {
        if k < |m.work| {
          assert t.work[..|m.work|][k] == m.work[k];
        }
      }
    }
  }

  /** Committed fenced work is in nondecreasing token order. */
  lemma WorkInTokenOrder(s: Cluster, es: seq<Event>)
    requires Initial(s)
    ensures forall j, k | 0 <= j <= k < |Run(s, es).work| :: Run(s, es).work[j] <= Run(s, es).work[k]
  {
    RunKeepsTokens(s, es);
  }

  // ---------------------------------------------------------------- leaders, in every orderly run

  /** In every orderly run, at every moment, at most one instance believes it is the leader. */
  lemma AtMostOneLeader(s: Cluster, es: seq<Event>, i: Instance, j: Instance)
    requires Initial(s) && Orderly(s, es)
    requires i in Run(s, es).nodes && j in Run(s, es).nodes
    requires IsLeader(Run(s, es).nodes[i], Run(s, es).now) && IsLeader(Run(s, es).nodes[j], Run(s, es).now)
    ensures i == j
  {
    RunKeepsInv(s, es);
    assert NodeInv(Run(s, es), i) && NodeInv(Run(s, es), j);
  }

  /** A live leader's token is the newest one, and a fenced transaction with it is admitted. */
  lemma LiveLeaderIsFenced(s: Cluster, es: seq<Event>, i: Instance)
    requires Initial(s) && Orderly(s, es)
    requires i in Run(s, es).nodes && IsLeader(Run(s, es).nodes[i], Run(s, es).now)
    ensures var t := Run(s, es);
            && FenceHolds(t.row, i, t.nodes[i].fencingToken, t.now)
            && t.issued != [] && (forall k | 0 <= k < |t.issued| :: t.issued[k].fence <= t.nodes[i].fencingToken)
  {
    RunKeepsInv(s, es);
    assert NodeInv(Run(s, es), i);
  }

  predicate StampsOnExecution(e: Event) {
    e.ExecuteLost? ==> e.stampAge == 0.0
  }

  /** A run whose lost statements did not wait is orderly, and so is one without any. */
  lemma {:induction false} PromptStampsAreOrderly(s: Cluster, es: seq<Event>)
    requires Inv(s) && forall k | 0 <= k < |es| :: StampsOnExecution(es[k])
    ensures Orderly(s, es)
    decreases |es|
  {
    if es != [] {
      var e := es[0];
      assert StampsOnExecution(e);
      if e.ExecuteLost? && Enabled(s, e) {
        assert NodeInv(s, e.i);
      }
      StepKeepsInv(s, e);
      PromptStampsAreOrderly(Next(s, e), es[1..]);
    }
  }

  // ---------------------------------------------------------------- the condition is exact

  /** The tick of an idle instance that takes an expired row over. */
  function TakeOver(j: Instance): seq<Event> {
    [Fail(j), Send(j), Execute(j, 0.0), Receive(j, true)]
  }

  lemma {:induction false} RunTwice(s: Cluster, es: seq<Event>, fs: seq<Event>)
    ensures Run(s, es + fs) == Run(Run(s, es), fs)
    decreases |es|
  {
    if es == [] {
      assert es + fs == fs;
    } else {
      assert (es + fs)[1..] == es[1..] + fs;
      RunTwice(Next(s, es[0]), es[1..], fs);
    }
  }

  lemma RunOne(s: Cluster, e: Event)
    ensures Run(s, [e]) == Next(s, e)
  {
    assert [e][1..] == [];
  }

  lemma RunTwo(s: Cluster, a: Event, b: Event)
    ensures Run(s, [a, b]) == Next(Next(s, a), b)
  {
    hide Next;
    assert [a, b] == [a] + [b];
    RunTwice(s, [a], [b]);
    RunOne(s, a);
    RunOne(Next(s, a), b);
  }

  lemma FailedAndSent(s: Cluster, j: Instance)
    requires j in s.nodes && !s.nodes[j].stopped
    ensures var t := Run(s, [Fail(j), Send(j)]);
            && j in t.nodes && t == With(s, j, t.nodes[j]) && t.nodes[j].call == Sent(LocalNow(s.nodes[j], s.now))
            && !t.nodes[j].stopped && t.nodes[j].skew == s.nodes[j].skew && t.nodes[j].leaseMs == s.nodes[j].leaseMs
  {
    RunTwo(s, Fail(j), Send(j));
    var a := Next(s, Fail(j));
    assert a == With(s, j, TickFailed(s.nodes[j]));
    assert s.nodes[j := TickFailed(s.nodes[j])][j := TickSent(a.nodes[j], s.now)] == s.nodes[j := TickSent(a.nodes[j], s.now)];
  }

  lemma ExecutedAndReceived(s: Cluster, j: Instance)
    requires j in s.nodes && !s.nodes[j].stopped && s.nodes[j].leaseMs > 0.0 && s.rowLock.None?
    requires s.nodes[j].call == Sent(LocalNow(s.nodes[j], s.now))
    requires s.row.Some? && s.row.value.instance != j && s.row.value.expires < s.now && s.row.value.fence < MAX_SAFE_INTEGER
    ensures var t := Run(s, [Execute(j, 0.0), Receive(j, true)]);
            && t.now == s.now && t.nodes.Keys == s.nodes.Keys && IsLeader(t.nodes[j], t.now)
            && (forall i | i in s.nodes && i != j :: t.nodes[i] == s.nodes[i])
            && t.row == Some(Row(j, s.row.value.fence + 1, s.now + s.nodes[j].leaseMs))
            && t.nodes[j].fencingToken == s.row.value.fence + 1 && t.nodes[j].deadline == LocalNow(s.nodes[j], s.now) + s.nodes[j].leaseMs
            && t.nodes[j].skew == s.nodes[j].skew
  {
    RunTwo(s, Execute(j, 0.0), Receive(j, true));
    var a := Next(s, Execute(j, 0.0));
    assert a.nodes[j].call == Answered(LocalNow(s.nodes[j], s.now), Granted(s.row.value.fence + 1));
  }

  /** An instance able to lead leads as soon as the row is expired. */
  lemma TakeOverLeads(s: Cluster, j: Instance)
    requires j in s.nodes && !s.nodes[j].stopped && s.nodes[j].leaseMs > 0.0 && s.rowLock.None?
    requires s.row.Some? && s.row.value.instance != j && s.row.value.expires < s.now && s.row.value.fence < MAX_SAFE_INTEGER
    ensures var t := Run(s, TakeOver(j));
            && t.now == s.now && t.nodes.Keys == s.nodes.Keys && IsLeader(t.nodes[j], t.now)
            && (forall i | i in s.nodes && i != j :: t.nodes[i] == s.nodes[i])
            && t.row == Some(Row(j, s.row.value.fence + 1, s.now + s.nodes[j].leaseMs))
            && t.nodes[j].fencingToken == s.row.value.fence + 1 && t.nodes[j].deadline == LocalNow(s.nodes[j], s.now) + s.nodes[j].leaseMs
            && t.nodes[j].skew == s.nodes[j].skew
  {
    hide Run;
    assert TakeOver(j) == [Fail(j), Send(j)] + [Execute(j, 0.0), Receive(j, true)];
    RunTwice(s, [Fail(j), Send(j)], [Execute(j, 0.0), Receive(j, true)]);
    FailedAndSent(s, j);
    ExecutedAndReceived(Run(s, [Fail(j), Send(j)]), j);
  }

  /** A moment after the row's expiry and before a later claim. */
  function Between(now: real, expires: real, end: real): (t: real)
    requires now < end && expires < end
    ensures now < t < end && expires < t
  {
    ((if now < expires then expires else now) + end) / 2.0
  }

  /** What the early statement leaves behind, at a moment after the expiry it wrote. */
  lemma EarlyLeavesExpired(s: Cluster, e: Event, end: real) returns (later: Event, t: Cluster)
    requires Inv(s) && Early(s, e) && Claims(s.nodes[e.i], s.now, LocalNow(s.nodes[e.i], end))
    requires s.now - e.stampAge + s.nodes[e.i].leaseMs < end
    ensures t == Run(s, [e, later]) && later.Advance?
    ensures t.rowLock.None? && t.nodes.Keys == s.nodes.Keys && t.nodes[e.i] == s.nodes[e.i].(lost := t.nodes[e.i].lost)
    ensures forall j | j in s.nodes && j != e.i :: t.nodes[j] == s.nodes[j]
    ensures s.now < t.now < end && s.row.Some? && t.row.Some? && t.row.value.instance == e.i && t.row.value.fence == s.row.value.fence && t.row.value.expires < t.now
  {
    var expires := s.now - e.stampAge + s.nodes[e.i].leaseMs;
    later := Advance(Between(s.now, expires, end) - s.now);
    RunTwo(s, e, later);
    assert NodeInv(s, e.i);
    t := Next(Next(s, e), later);
  }

  /** `Receive` turns a claim into leadership. */
  function Settle(n: Node, i: Instance, localDeadline: real): seq<Event> {
    if n.held && localDeadline == n.deadline then [] else [Receive(i, true)]
  }

  lemma SettledLeads(s: Cluster, i: Instance, localDeadline: real)
    requires i in s.nodes && Claims(s.nodes[i], s.now, localDeadline)
    requires var n := s.nodes[i];
             Settle(n, i, localDeadline) != [] && n.call.Answered? && n.call.reply.Granted? ==> n.call.reply.fence <= MAX_SAFE_INTEGER
    ensures var t := Run(s, Settle(s.nodes[i], i, localDeadline));
            && t.now == s.now && t.row == s.row && t.nodes.Keys == s.nodes.Keys && IsLeader(t.nodes[i], t.now)
            && (forall j | j in s.nodes && j != i :: t.nodes[j] == s.nodes[j])
  {
    RunOne(s, Receive(i, true));
  }

  /**
   The condition is exact. If in a state that an orderly run keeps, a lost statement executes
   early, then some continuation makes another instance leader while this one is: any instance
   that is not stopped will do.
   */
  lemma EarlyStampAdmitsTwoLeaders(s: Cluster, e: Event, j: Instance) returns (es: seq<Event>)
    requires Inv(s) && Early(s, e) && (s.row.Some? ==> s.row.value.fence < MAX_SAFE_INTEGER)
    requires j in s.nodes && j != e.i && !s.nodes[j].stopped && s.nodes[j].leaseMs > 0.0
    ensures var t := Run(s, [e] + es);
            && e.i in t.nodes && j in t.nodes && e.i != j
            && IsLeader(t.nodes[e.i], t.now) && IsLeader(t.nodes[j], t.now)
    ensures NoneLost(es)
  {
    hide Run, Next;
    assert NodeInv(s, e.i);
    var n := s.nodes[e.i];
    var claim :| Claims(n, s.now, claim) && LocalNow(n, s.now - e.stampAge) + n.leaseMs < claim;
    var end := claim - n.skew;
    assert LocalNow(n, end) == claim;
    var later, t := EarlyLeavesExpired(s, e, end);
    TakeOverLeads(t, j);
    var u := Run(t, TakeOver(j));
    SettledLeads(u, e.i, claim);
    es := [later] + TakeOver(j) + Settle(u.nodes[e.i], e.i, claim);
    assert [e] + es == [e, later] + (TakeOver(j) + Settle(u.nodes[e.i], e.i, claim));
    RunTwice(s, [e, later], TakeOver(j) + Settle(u.nodes[e.i], e.i, claim));
    RunTwice(t, TakeOver(j), Settle(u.nodes[e.i], e.i, claim));
  }

  /** The same step also breaks fencing: a continuation has a leader whose own token is rejected. */
  lemma EarlyStampUnfencesLeader(s: Cluster, e: Event) returns (es: seq<Event>)
    requires Inv(s) && Early(s, e) && (s.row.Some? ==> s.row.value.fence < MAX_SAFE_INTEGER)
    ensures var t := Run(s, [e] + es);
            e.i in t.nodes && IsLeader(t.nodes[e.i], t.now) && forall fence :: !FenceHolds(t.row, e.i, fence, t.now)
  {
    hide Run, Next;
    assert NodeInv(s, e.i);
    var n := s.nodes[e.i];
    var claim :| Claims(n, s.now, claim) && LocalNow(n, s.now - e.stampAge) + n.leaseMs < claim;
    var end := claim - n.skew;
    assert LocalNow(n, end) == claim;
    var later, t := EarlyLeavesExpired(s, e, end);
    SettledLeads(t, e.i, claim);
    es := [later] + Settle(t.nodes[e.i], e.i, claim);
    assert [e] + es == [e, later] + Settle(t.nodes[e.i], e.i, claim);
    RunTwice(s, [e, later], Settle(t.nodes[e.i], e.i, claim));
  }

  ghost predicate TwoLeaders(s: Cluster) {
    exists i, j :: i in s.nodes && j in s.nodes && i != j && IsLeader(s.nodes[i], s.now) && IsLeader(s.nodes[j], s.now)
  }

  predicate NoneLost(es: seq<Event>) {
    forall k | 0 <= k < |es| :: !es[k].ExecuteLost?
  }

  lemma OneLeader(s: Cluster)
    requires Inv(s)
    ensures !TwoLeaders(s)
  {
    forall i, j | i in s.nodes && j in s.nodes && IsLeader(s.nodes[i], s.now) && IsLeader(s.nodes[j], s.now) ensures i == j {
      assert NodeInv(s, i) && NodeInv(s, j);
    }
  }

  /** A step can lead to two leaders without a further lost statement if and only if it is an early one. */
  lemma TwoLeadersIffEarly(s: Cluster, e: Event, j: Instance)
    requires Inv(s) && (s.row.Some? ==> s.row.value.fence < MAX_SAFE_INTEGER)
    requires j in s.nodes && !s.nodes[j].stopped && s.nodes[j].leaseMs > 0.0 && (e.ExecuteLost? ==> j != e.i)
    ensures Early(s, e) <==> exists es :: NoneLost(es) && TwoLeaders(Run(s, [e] + es))
  {
    hide Run, Next;
    if Early(s, e) {
      var es := EarlyStampAdmitsTwoLeaders(s, e, j);
      var t := Run(s, [e] + es);
      assert TwoLeaders(t);
    } else {
      forall es | NoneLost(es) ensures !TwoLeaders(Run(s, [e] + es)) {
        StepKeepsInv(s, e);
        RunTwice(s, [e], es);
        RunOne(s, e);
        forall k | 0 <= k < |es| ensures StampsOnExecution(es[k]) {
        }
        PromptStampsAreOrderly(Next(s, e), es);
        RunKeepsInv(Next(s, e), es);
        OneLeader(Run(Next(s, e), es));
      }
    }
  }

  /** An instance with a lease of 10 ms that has not ticked yet. */
  const IDLE: Node := Node(0.0, 10.0, false, 0.0, 0, Idle, false, [])

  const LEADING: Node := IDLE.(held := true, deadline := 15.0, fencingToken := 1)

  /** Two instances, of which only the first has done anything. */
  function Pair(now: real, first: Node, row: Option<Row>, issued: seq<Issue>): Cluster {
    Cluster(now, map[0 := first, 1 := IDLE], row, None, issued, [])
  }

  const START: Cluster := Pair(0.0, IDLE, None, [])

  lemma RunThree(s: Cluster, a: Event, b: Event, c: Event)
    ensures Run(s, [a, b, c]) == Next(Next(Next(s, a), b), c)
  {
    hide Next;
    assert [a, b, c] == [a, b] + [c];
    RunTwice(s, [a, b], [c]);
    RunTwo(s, a, b);
    RunOne(Next(Next(s, a), b), c);
  }

  lemma FirstTickFails()
    ensures Run(START, [Send(0), Fail(0), Advance(5.0)]) == Pair(5.0, IDLE.(lost := [0.0]), None, [])
  {
    RunThree(START, Send(0), Fail(0), Advance(5.0));
    assert IDLE.lost + [0.0] == [0.0];
    assert Next(START, Send(0)) == Pair(0.0, IDLE.(call := Sent(0.0)), None, []);
    assert Next(Pair(0.0, IDLE.(call := Sent(0.0)), None, []), Fail(0)) == Pair(0.0, IDLE.(lost := [0.0]), None, []);
  }

  lemma SecondTickLeads()
    ensures Run(Pair(5.0, IDLE.(lost := [0.0]), None, []), [Send(0), Execute(0, 0.0), Receive(0, true)]) ==
            Pair(5.0, LEADING.(lost := [0.0]), Some(Row(0, 1, 15.0)), [Issue(1, 0)])
  {
    var s := Pair(5.0, IDLE.(lost := [0.0]), None, []);
    RunThree(s, Send(0), Execute(0, 0.0), Receive(0, true));
    var sent := Pair(5.0, IDLE.(lost := [0.0], call := Sent(5.0)), None, []);
    var answered := Pair(5.0, IDLE.(lost := [0.0], call := Answered(5.0, Granted(1))), Some(Row(0, 1, 15.0)), [Issue(1, 0)]);
    assert Next(s, Send(0)) == sent;
    assert Next(sent, Execute(0, 0.0)) == answered;
  }

  lemma LostStatementShortens()
    ensures Run(Pair(5.0, LEADING.(lost := [0.0]), Some(Row(0, 1, 15.0)), [Issue(1, 0)]), [ExecuteLost(0, 0, 5.0), Advance(6.0)]) ==
            Pair(11.0, LEADING, Some(Row(0, 1, 10.0)), [Issue(1, 0), Issue(1, 0)])
  {
    var s := Pair(5.0, LEADING.(lost := [0.0]), Some(Row(0, 1, 15.0)), [Issue(1, 0)]);
    RunTwo(s, ExecuteLost(0, 0, 5.0), Advance(6.0));
    assert s.nodes[0].lost[..0] + s.nodes[0].lost[1..] == [];
    assert Next(s, ExecuteLost(0, 0, 5.0)) == Pair(5.0, LEADING, Some(Row(0, 1, 10.0)), [Issue(1, 0), Issue(1, 0)]);
  }

  /** The first instance's tick fails, its next one succeeds, and the lost statement executes after that. */
  function Overtaken(): seq<Event> {
    [Send(0), Fail(0), Advance(5.0)] + ([Send(0), Execute(0, 0.0), Receive(0, true)] + ([ExecuteLost(0, 0, 5.0), Advance(6.0)] + TakeOver(1)))
  }

  /** A run from the start with two leaders: the lost statement moves the expiry from 15 back to 10, and at 11 the row is taken over. */
  lemma OvertakenStatementMakesTwoLeaders()
    ensures Initial(START) && TwoLeaders(Run(START, Overtaken()))
  {
    hide Run, Next;
    var tick, lost := [Send(0), Execute(0, 0.0), Receive(0, true)], [ExecuteLost(0, 0, 5.0), Advance(6.0)];
    RunTwice(START, [Send(0), Fail(0), Advance(5.0)], tick + (lost + TakeOver(1)));
    FirstTickFails();
    RunTwice(Pair(5.0, IDLE.(lost := [0.0]), None, []), tick, lost + TakeOver(1));
    SecondTickLeads();
    RunTwice(Pair(5.0, LEADING.(lost := [0.0]), Some(Row(0, 1, 15.0)), [Issue(1, 0)]), lost, TakeOver(1));
    LostStatementShortens();
    var s := Pair(11.0, LEADING, Some(Row(0, 1, 10.0)), [Issue(1, 0), Issue(1, 0)]);
    TakeOverLeads(s, 1);
    var t := Run(s, TakeOver(1));
    assert IsLeader(t.nodes[0], t.now) && IsLeader(t.nodes[1], t.now);
  }

  // ---------------------------------------------------------------- what the single operations are for

  /** An instance that takes an expired row over leads for exactly its lease time, under the next token. */
  lemma TakeOverLeadsForLease(s: Cluster, j: Instance, elapsed: Span)
    requires j in s.nodes && !s.nodes[j].stopped && s.nodes[j].leaseMs > 0.0 && s.rowLock.None?
    requires s.row.Some? && s.row.value.instance != j && s.row.value.expires < s.now && s.row.value.fence < MAX_SAFE_INTEGER
    ensures var t := Run(s, TakeOver(j) + [Advance(elapsed)]);
            && j in t.nodes && (IsLeader(t.nodes[j], t.now) <==> elapsed < s.nodes[j].leaseMs)
            && t.nodes[j].fencingToken == s.row.value.fence + 1
  {
    hide Run, TakeOver;
    TakeOverLeads(s, j);
    RunTwice(s, TakeOver(j), [Advance(elapsed)]);
    RunOne(Run(s, TakeOver(j)), Advance(elapsed));
  }

  lemma LeaderHoldsRow(s: Cluster, i: Instance)
    requires Inv(s) && i in s.nodes && IsLeader(s.nodes[i], s.now)
    ensures FenceHolds(s.row, i, s.nodes[i].fencingToken, s.now)
  {
    assert NodeInv(s, i);
  }

  lemma RenewalExecutes(s: Cluster, i: Instance)
    requires i in s.nodes && s.nodes[i].call == Sent(LocalNow(s.nodes[i], s.now)) && s.rowLock.None?
    requires FenceHolds(s.row, i, s.nodes[i].fencingToken, s.now)
    ensures var t := Next(s, Execute(i, 0.0));
            && i in t.nodes && t.now == s.now && t.row == Some(Row(i, s.nodes[i].fencingToken, s.now + s.nodes[i].leaseMs))
            && t.nodes[i] == s.nodes[i].(call := Answered(LocalNow(s.nodes[i], s.now), Granted(s.nodes[i].fencingToken)))
  {
  }

  lemma RenewalSteps(s: Cluster, i: Instance)
    requires Inv(s) && i in s.nodes && IsLeader(s.nodes[i], s.now) && s.nodes[i].call == Idle && s.rowLock.None?
    requires s.nodes[i].fencingToken <= MAX_SAFE_INTEGER
    ensures var t := Run(s, [Send(i), Execute(i, 0.0), Receive(i, true)]);
            && i in t.nodes && t.now == s.now && t.nodes[i] == s.nodes[i].(deadline := LocalNow(s.nodes[i], s.now) + s.nodes[i].leaseMs)
            && t.row == Some(Row(i, s.nodes[i].fencingToken, s.now + s.nodes[i].leaseMs))
  {
    hide Inv, Run;
    RunThree(s, Send(i), Execute(i, 0.0), Receive(i, true));
    LeaderHoldsRow(s, i);
    var a := With(s, i, s.nodes[i].(call := Sent(LocalNow(s.nodes[i], s.now))));
    assert Next(s, Send(i)) == a;
    RenewalExecutes(a, i);
    var b := Next(a, Execute(i, 0.0));
    ReceivesGrant(b, i);
  }

  lemma ReceivesGrant(s: Cluster, i: Instance)
    requires i in s.nodes && s.nodes[i].call.Answered? && s.nodes[i].call.reply.Granted? && s.nodes[i].call.reply.fence <= MAX_SAFE_INTEGER
    ensures Next(s, Receive(i, true)) ==
            With(s, i, s.nodes[i].(held := true, deadline := s.nodes[i].call.started + s.nodes[i].leaseMs, fencingToken := s.nodes[i].call.reply.fence, call := Idle))
  {
  }

  /** A live leader's next tick keeps its token and makes it leader for its full lease time from then. */
  lemma RenewalExtendsLeadership(s: Cluster, i: Instance, elapsed: Span)
    requires Inv(s) && i in s.nodes && IsLeader(s.nodes[i], s.now) && s.nodes[i].call == Idle && s.rowLock.None?
    requires s.nodes[i].fencingToken <= MAX_SAFE_INTEGER
    ensures var t := Run(s, [Send(i), Execute(i, 0.0), Receive(i, true)] + [Advance(elapsed)]);
            && i in t.nodes && t.nodes[i].fencingToken == s.nodes[i].fencingToken
            && (IsLeader(t.nodes[i], t.now) <==> elapsed < s.nodes[i].leaseMs)
  {
    hide Run;
    RenewalSteps(s, i);
    var tick := [Send(i), Execute(i, 0.0), Receive(i, true)];
    RunTwice(s, tick, [Advance(elapsed)]);
    RunOne(Run(s, tick), Advance(elapsed));
  }

  /** A tick that fails ends leadership at once, whatever the deadline. */
  lemma FailedTickEndsLeadership(s: Cluster, i: Instance)
    requires i in s.nodes && s.nodes[i].call != Idle
    ensures i in Next(s, Fail(i)).nodes && !IsLeader(Next(s, Fail(i)).nodes[i], s.now) && Next(s, Fail(i)).nodes[i].call == Idle
  {
  }

  /** A granted token beyond the safe integers ends leadership once the error is caught; any other makes the holder. */
  lemma UnsafeTokenIsRefused(s: Cluster, i: Instance, caught: bool)
    requires i in s.nodes && s.nodes[i].call.Answered? && s.nodes[i].call.reply.Granted?
    ensures var n, t := s.nodes[i], Next(s, Receive(i, caught));
            && i in t.nodes && t.nodes[i].call == Idle && t.nodes[i].fencingToken == n.call.reply.fence
            && (IsLeader(t.nodes[i], t.now) <==>
                  !n.stopped && LocalNow(n, s.now) < n.call.started + n.leaseMs && (n.call.reply.fence <= 9007199254740991 || !caught))
  {
  }

  lemma StepKeepsStopped(s: Cluster, e: Event, i: Instance)
    requires i in s.nodes && s.nodes[i].stopped
    ensures i in Next(s, e).nodes && Next(s, e).nodes[i].stopped
  {
  }

  lemma {:induction false} RunKeepsStopped(s: Cluster, es: seq<Event>, i: Instance)
    requires i in s.nodes && s.nodes[i].stopped
    ensures i in Run(s, es).nodes && Run(s, es).nodes[i].stopped
    decreases |es|
  {
    hide Next;
    if es != [] {
      StepKeepsStopped(s, es[0], i);
      RunKeepsStopped(Next(s, es[0]), es[1..], i);
    }
  }

  /** After its shutdown an instance never leads again, in any continuation. */
  lemma StoppedNeverLeads(s: Cluster, i: Instance, es: seq<Event>)
    requires i in s.nodes
    ensures var t := Run(Next(s, Stop(i)), es); i in t.nodes && !IsLeader(t.nodes[i], t.now)
  {
    RunKeepsStopped(Next(s, Stop(i)), es, i);
  }

  /** Fenced work of a live leader is admitted and, exactly if it commits, added to the work done under its token. */
  lemma LeaderCommitsWork(s: Cluster, i: Instance, commit: bool)
    requires Inv(s) && i in s.nodes && IsLeader(s.nodes[i], s.now) && s.rowLock.None?
    ensures var t := Next(s, BeginFenced(i, s.nodes[i].fencingToken, 0.0));
            var u := Next(t, EndFenced(commit));
            && t.rowLock == Some(s.nodes[i].fencingToken) && u.rowLock == None && u.row == s.row
            && u.work == if commit then s.work + [s.nodes[i].fencingToken] else s.work
  {
    assert NodeInv(s, i);
  }

  /** No upsert and no release executes while a fenced transaction holds the row. */
  lemma FencedRowIsLocked(s: Cluster, e: Event)
    requires s.rowLock.Some?
    ensures Next(s, e).row == s.row && Next(s, e).issued == s.issued
  {
  }

  // ---------------------------------------------------------------- releasing the lease

  /** A stopped instance whose token is still on the row. */
  predicate MayRelease(s: Cluster, i: Instance) {
    && i in s.nodes && s.nodes[i].stopped && s.rowLock.None?
    && s.row.Some? && s.row.value.instance == i && s.row.value.fence == s.nodes[i].fencingToken
  }

  /**
   Releasing frees the lease: as soon as any time has passed, another instance's tick makes it
   leader under the next token.
   */
  lemma ReleaseAdmitsTakeOver(s: Cluster, i: Instance, j: Instance, elapsed: Span)
    requires MayRelease(s, i) && elapsed > 0.0 && s.row.value.fence < MAX_SAFE_INTEGER
    requires j in s.nodes && j != i && !s.nodes[j].stopped && s.nodes[j].leaseMs > 0.0
    ensures var t := Run(s, [Release(i), Advance(elapsed)] + TakeOver(j));
            j in t.nodes && IsLeader(t.nodes[j], t.now) && t.nodes[j].fencingToken == s.nodes[i].fencingToken + 1
  {
    hide Run, TakeOver;
    RunTwice(s, [Release(i), Advance(elapsed)], TakeOver(j));
    RunTwo(s, Release(i), Advance(elapsed));
    TakeOverLeads(Next(Next(s, Release(i)), Advance(elapsed)), j);
  }

  /** The token is off the row, or the row expired no later than `since`. */
  ghost predicate Released(s: Cluster, fence: nat, since: real) {
    && s.row.Some? && since <= s.now && fence <= s.row.value.fence
    && (s.row.value.fence == fence ==> s.row.value.expires <= since)
  }

  predicate NotReleasing(e: Event, i: Instance) { e != Release(i) }

  lemma StepKeepsReleased(s: Cluster, e: Event, i: Instance, fence: nat, since: real)
    requires TokenInv(s) && Released(s, fence, since) && (s.row.value.fence == fence ==> s.row.value.instance == i) && NotReleasing(e, i)
    ensures Released(Next(s, e), fence, since)
    ensures Next(s, e).row.value.fence == fence ==> Next(s, e).row.value.instance == i
  {
  }

  lemma {:induction false} RunKeepsReleased(s: Cluster, es: seq<Event>, i: Instance, fence: nat, since: real)
    requires TokenInv(s) && Released(s, fence, since) && (s.row.value.fence == fence ==> s.row.value.instance == i)
    requires forall k | 0 <= k < |es| :: NotReleasing(es[k], i)
    ensures Released(Run(s, es), fence, since)
    decreases |es|
  {
    hide Next, TokenInv;
    if es != [] {
      assert NotReleasing(es[0], i);
      StepKeepsReleased(s, es[0], i, fence, since);
      StepKeepsTokens(s, es[0]);
      RunKeepsReleased(Next(s, es[0]), es[1..], i, fence, since);
    }
  }

  /**
   After the release no fenced transaction with that token is admitted on a clock reading at or
   after it, in any continuation without a second release by the same instance.
   */
  lemma ReleaseEndsFencing(s: Cluster, i: Instance, es: seq<Event>, age: Span)
    requires TokenInv(s) && MayRelease(s, i) && forall k | 0 <= k < |es| :: NotReleasing(es[k], i)
    requires s.now <= Run(Next(s, Release(i)), es).now - age
    ensures !Enabled(Run(Next(s, Release(i)), es), BeginFenced(i, s.nodes[i].fencingToken, age))
  {
    hide Run;
    StepKeepsTokens(s, Release(i));
    RunKeepsReleased(Next(s, Release(i)), es, i, s.nodes[i].fencingToken, s.now);
  }

  /** A release whose token is no longer on the row changes nothing. */
  lemma StaleReleaseChangesNothing(s: Cluster, i: Instance)
    requires s.row.Some? ==> s.row.value.instance != i || (i in s.nodes ==> s.row.value.fence != s.nodes[i].fencingToken)
    ensures Next(s, Release(i)) == s
  {
  }

  // ---------------------------------------------------------------- the objects

  /** The database side: the row and its lock. */
  class SchedulerRuns {
    var row: Option<Row>
    var rowLock: Option<nat>

    constructor ()
      ensures row == None && rowLock == None
    {
      row, rowLock := None, None;
    }

    /** The tick's statement, with the expiry already computed; it waits while the row is locked. */
    method InsertOrTakeOver(i: Instance, now: real, expires: real) returns (reply: Reply)
      requires rowLock == None
      modifies this`row
      ensures row == Upsert(old(row), i, now, expires) && reply == UpsertReply(old(row), i, now)
    {
      match row {
        case None =>
          row := Some(Row(i, 1, expires));
          reply := Granted(1);
        case Some(r) =>
          if r.expires < now || r.instance == i {
            var fence := if r.instance == i && r.expires > now then r.fence else r.fence + 1;
            row := Some(Row(i, fence, expires));
            reply := Granted(fence);
          } else {
            reply := Refused;
          }
      }
    }

    method ExpireIfHeld(i: Instance, fence: nat, now: real)
      requires rowLock == None
      modifies this`row
      ensures row == ReleaseRow(old(row), i, fence, now)
    {
      if row.Some? && row.value.instance == i && row.value.fence == fence {
        row := Some(row.value.(expires := now));
      }
    }

    /**
     `fencedTransaction` up to the work: `SCHEDULER_FENCE_REJECTED` unless the token is current.
     The expiry is compared with the clock read at `readAt`, before any wait for the row lock.
     */
    method LockFence(i: Instance, fence: nat, readAt: real) returns (admitted: bool)
      requires rowLock == None
      modifies this`rowLock
      ensures admitted == FenceHolds(row, i, fence, readAt)
      ensures rowLock == if admitted then Some(fence) else None
    {
      admitted := row.Some? && row.value.instance == i && row.value.fence == fence && row.value.expires > readAt;
      if admitted {
        rowLock := Some(fence);
      }
    }
  }

  /** One instance. `local` is its own clock reading. */
  class Election {
    const skew: real
    const leaseMs: Span
    var held: bool
    var deadline: real
    var fencingToken: nat
    var call: Call
    var stopped: bool
    var lost: seq<real>

    function View(): Node
      reads this
    {
      Node(skew, leaseMs, held, deadline, fencingToken, call, stopped, lost)
    }

    constructor (skew: real, leaseMs: Span)
      ensures View() == Node(skew, leaseMs, false, 0.0, 0, Idle, false, [])
    {
      this.skew, this.leaseMs := skew, leaseMs;
      held, deadline, fencingToken, call, stopped, lost := false, 0.0, 0, Idle, false, [];
    }

    method BeginTick(now: real)
      modifies this`call
      ensures View() == TickSent(old(View()), now)
    {
      if call != Idle || stopped {
        return;
      }
      call := Sent(now + skew);
    }

    method FinishTick(caught: bool)
      requires call.Answered?
      modifies this`held, this`deadline, this`fencingToken, this`call
      ensures View() == TickReceived(old(View()), caught)
    {
      held := call.reply.Granted?;
      if held {
        deadline := call.started + leaseMs;
        fencingToken := call.reply.fence;
        if fencingToken > MAX_SAFE_INTEGER && caught {
          held := false;
        }
      }
      call := Idle;
    }

    method FailTick()
      requires call != Idle
      modifies this`held, this`call, this`lost
      ensures View() == TickFailed(old(View()))
    {
      if call.Sent? {
        lost := lost + [call.started];
      }
      held, call := false, Idle;
    }

    method Shutdown()
      modifies this`stopped, this`held
      ensures View() == Halted(old(View()))
    {
      stopped, held := true, false;
    }

    /** `token()`: the fencing token, or `SCHEDULER_NOT_LEADER`. */
    method Token(now: real) returns (token: Option<nat>)
      ensures token == if IsLeader(View(), now) then Some(fencingToken) else None
    {
      if !stopped && held && now + skew < deadline {
        token := Some(fencingToken);
      } else {
        token := None;
      }
    }
  }
}
