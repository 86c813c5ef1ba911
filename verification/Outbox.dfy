/**
 The transactional outbox of `PostgresControlPlane`: publishing under an advisory lock, reading by
 a cursor in bounded pages, and pruning of old rows.

 A publishing transaction is split into taking the lock, inserting (which draws an id from the
 sequence) and ending, by commit or by rollback; a rolled-back id is never reused, and the
 sequence may skip ids.  A drain is split into setting `draining`, the query, and the delivery of
 its rows.  All steps of all transactions and subscribers interleave freely.
 */
module Outbox {

  import opened Common

  datatype Draft = Draft(topic: string, partitionKey: string, payload: seq<int>)

  datatype Message = Message(id: nat, draft: Draft, publishedAt: int)

  const PAGE_LIMIT: nat := 512
  const RETENTION_MS: nat := 7 * 24 * 60 * 60 * 1000

  // ---------------------------------------------------------------- validation of drafts

  predicate LowerLetter(c: char) { 'a' <= c <= 'z' }

  predicate TopicTail(c: char) { LowerLetter(c) || '0' <= c <= '9' || c == '.' || c == '_' || c == '-' }

  predicate ValidTopic(t: string) {
    1 <= |t| <= 64 && LowerLetter(t[0]) && forall k | 1 <= k < |t| :: TopicTail(t[k])
  }

  predicate Publishable(d: Draft) {
    ValidTopic(d.topic) && |d.partitionKey| <= 200 && |d.payload| <= 7000
  }

  // ---------------------------------------------------------------- the table and its queries

  type Table = map<nat, Message>

  ghost predicate HasAbove(ids: set<nat>, cursor: nat) {
    exists id :: id in ids && id > cursor
  }

  ghost predicate IsLeastAbove(ids: set<nat>, cursor: nat, id: nat) {
    id in ids && id > cursor && forall other | other in ids && other > cursor :: id <= other
  }

  lemma LeastAboveExists(ids: set<nat>, cursor: nat)
    requires HasAbove(ids, cursor)
    ensures exists id :: IsLeastAbove(ids, cursor, id)
  {
    var id :| id in ids && id > cursor;
    LeastAboveBelow(ids, cursor, id);
  }

  lemma {:induction false} LeastAboveBelow(ids: set<nat>, cursor: nat, id: nat)
    requires id in ids && id > cursor
    ensures exists least :: IsLeastAbove(ids, cursor, least)
    decreases id
  {
    if other :| other in ids && other > cursor && other < id {
      LeastAboveBelow(ids, cursor, other);
    } else {
      assert IsLeastAbove(ids, cursor, id);
    }
  }

  ghost function LeastAbove(ids: set<nat>, cursor: nat): (id: nat)
    requires HasAbove(ids, cursor)
    ensures IsLeastAbove(ids, cursor, id)
  {
    LeastAboveExists(ids, cursor);
    var id :| IsLeastAbove(ids, cursor, id);
    id
  }

  /** `SELECT ... WHERE id > cursor ORDER BY id LIMIT limit` */
  ghost function Page(table: Table, cursor: nat, limit: nat): seq<Message>
    decreases limit
  {
    if limit == 0 || !HasAbove(table.Keys, cursor) then []
    else
      var id: nat := LeastAbove(table.Keys, cursor);
      [table[id]] + Page(table, id, limit - 1)
  }

  /** `SELECT COALESCE(MAX(id), 0)` */
  ghost predicate IsMaxId(table: Table, id: nat) {
    && (id == 0 || id in table)
    && (forall other | other in table :: other <= id)
  }

  function Prune(table: Table, now: int): Table {
    map id | id in table && !(table[id].publishedAt < now - RETENTION_MS) :: table[id]
  }

  // ---------------------------------------------------------------- a subscriber

  datatype Drain = Quiet | Querying | Fetched(page: seq<Message>)

  /** `origin` is the cursor captured at start; `dispatched` is what reached the listeners. */
  datatype Subscriber = Subscriber(origin: nat, cursor: nat, drain: Drain, stopped: bool, dispatched: seq<Message>)

  /** The delivery loop: the cursor moves first; an invalid topic would end the loop there. */
  function Deliver(s: Subscriber, page: seq<Message>): Subscriber
    decreases |page|
  {
    if page == [] then s.(drain := Quiet)
    else
      var moved := s.(cursor := page[0].id);
      if !ValidTopic(page[0].draft.topic) then moved.(drain := Quiet)
      else Deliver(moved.(dispatched := s.dispatched + [page[0]]), page[1..])
  }

  // ---------------------------------------------------------------- the system

  /**
   `staged` is what the holder of the advisory lock has inserted; `log` is every row ever
   committed; every id up to `settled` is committed or will never be.
   */
  datatype System = System(
    now: int, nextId: nat, staged: Option<Table>, table: Table, log: Table, settled: int,
    subscribers: map<nat, Subscriber>)

  datatype Event =
    | Advance(elapsed: nat)
    | Lock
    | Insert(draft: Draft, skipped: nat)
    | End(commit: bool)
    | Maintain
    | Start(who: nat, newest: nat)
    | BeginDrain(who: nat)
    | Query(who: nat)
    | DeliverPage(who: nat)
    | FailDrain(who: nat)
    | Shutdown(who: nat)

  ghost predicate Enabled(s: System, e: Event) {
    match e
    case Advance(_) => true
    case Lock => s.staged.None?
    case Insert(d, _) => s.staged.Some? && Publishable(d)
    case End(_) => s.staged.Some?
    case Maintain => true
    case Start(who, newest) => who !in s.subscribers && IsMaxId(s.table, newest)
    case BeginDrain(who) => who in s.subscribers && !s.subscribers[who].stopped && s.subscribers[who].drain.Quiet?
    case Query(who) => who in s.subscribers && s.subscribers[who].drain.Querying?
    case DeliverPage(who) => who in s.subscribers && s.subscribers[who].drain.Fetched?
    case FailDrain(who) => who in s.subscribers && !s.subscribers[who].drain.Quiet?
    case Shutdown(who) => who in s.subscribers
  }

  function With(s: System, who: nat, u: Subscriber): System {
    s.(subscribers := s.subscribers[who := u])
  }

  /** One step. An event that cannot happen in `s` leaves it unchanged. */
  ghost function Next(s: System, e: Event): System {
    if !Enabled(s, e) then s else
    match e
    case Advance(elapsed) => s.(now := s.now + elapsed)
    case Lock => s.(staged := Some(map[]))
    case Insert(d, skipped) =>
      var id := s.nextId + skipped;
      s.(nextId := id + 1, staged := Some(s.staged.value[id := Message(id, d, s.now)]))
    case End(commit) =>
      if commit then s.(staged := None, table := s.table + s.staged.value, log := s.log + s.staged.value, settled := s.nextId - 1)
      else s.(staged := None)
    case Maintain => s.(table := Prune(s.table, s.now))
    case Start(who, newest) => With(s, who, Subscriber(newest, newest, Quiet, false, []))
    case BeginDrain(who) => With(s, who, s.subscribers[who].(drain := Querying))
    case Query(who) =>
      With(s, who, s.subscribers[who].(drain := Fetched(Page(s.table, s.subscribers[who].cursor, PAGE_LIMIT))))
    case DeliverPage(who) => With(s, who, Deliver(s.subscribers[who], s.subscribers[who].drain.page))
    case FailDrain(who) => With(s, who, s.subscribers[who].(drain := Quiet))
    case Shutdown(who) => With(s, who, s.subscribers[who].(stopped := true))
  }

  ghost function Run(s: System, es: seq<Event>): System
    decreases |es|
  {
    if es == [] then s else Run(Next(s, es[0]), es[1..])
  }

  ghost predicate Initial(s: System) {
    s.nextId == 1 && s.staged.None? && s.table == map[] && s.log == map[] && s.settled == 0 && s.subscribers == map[]
  }

  // ---------------------------------------------------------------- the invariant

  ghost predicate Ascending(ms: seq<Message>) {
    forall j, k | 0 <= j < k < |ms| :: ms[j].id < ms[k].id
  }

  ghost predicate RowOf(t: Table, id: nat, now: int)
    requires id in t
  {
    id >= 1 && t[id].id == id && t[id].publishedAt <= now && Publishable(t[id].draft)
  }

  /** Ids in flight exceed every id that is settled. */
  ghost predicate LogInv(s: System) {
    && 0 <= s.settled < s.nextId
    && (forall id | id in s.log :: id <= s.settled && RowOf(s.log, id, s.now))
    && (s.staged.Some? ==> forall id | id in s.staged.value :: s.settled < id < s.nextId && RowOf(s.staged.value, id, s.now))
  }

  ghost predicate Expired(s: System, m: Message) {
    m.publishedAt < s.now - RETENTION_MS
  }

  /** The table holds committed rows only; one that is missing was old enough to prune. */
  ghost predicate TableInv(s: System) {
    && (forall id | id in s.table :: id in s.log && s.table[id] == s.log[id])
    && (forall id | id in s.log :: id in s.table || Expired(s, s.log[id]))
  }

  /** `ms` are committed rows of `(low, high]`, in order; one that is missing there has been pruned. */
  ghost predicate Extract(s: System, ms: seq<Message>, low: nat, high: nat) {
    && low <= high <= s.settled
    && Ascending(ms)
    && (forall k | 0 <= k < |ms| :: low < ms[k].id <= high && ms[k].id in s.log && s.log[ms[k].id] == ms[k])
    && (forall id | id in s.log && low < id <= high :: s.log[id] in ms || id !in s.table)
  }

  ghost function PageEnd(page: seq<Message>, cursor: nat): nat {
    if page == [] then cursor else page[|page| - 1].id
  }

  ghost predicate SubscriberInv(s: System, u: Subscriber) {
    && Extract(s, u.dispatched, u.origin, u.cursor)
    && (u.drain.Fetched? ==> Extract(s, u.drain.page, u.cursor, PageEnd(u.drain.page, u.cursor)))
  }

  ghost predicate Inv(s: System) {
    && LogInv(s)
    && TableInv(s)
    && forall who | who in s.subscribers :: SubscriberInv(s, s.subscribers[who])
  }

  // ---------------------------------------------------------------- steps keep the invariant

  /** Rows of the table from just above the cursor, in order and without a gap. */
  ghost predicate Gapless(table: Table, cursor: nat, page: seq<Message>) {
    && cursor <= PageEnd(page, cursor) && Ascending(page)
    && (forall k | 0 <= k < |page| :: cursor < page[k].id && page[k].id in table && table[page[k].id] == page[k])
    && (forall id | id in table && cursor < id <= PageEnd(page, cursor) :: table[id] in page)
  }

  lemma GaplessStep(table: Table, cursor: nat, id: nat, rest: seq<Message>)
    requires IsLeastAbove(table.Keys, cursor, id) && table[id].id == id && Gapless(table, id, rest)
    ensures Gapless(table, cursor, [table[id]] + rest)
  {
    var page := [table[id]] + rest;
    assert PageEnd(page, cursor) == PageEnd(rest, id);
    assert page[0] == table[id];
    forall other: nat | other in table && cursor < other <= PageEnd(page, cursor) ensures table[other] in page {
      if other != id { assert table[other] in rest; }
    }
  }

  /** The page query returns pending rows in order and without a gap. */
  lemma {:induction false} PageIsGapless(table: Table, cursor: nat, limit: nat)
    requires forall id | id in table :: table[id].id == id
    ensures Gapless(table, cursor, Page(table, cursor, limit))
    decreases limit
  {
    if limit != 0 && HasAbove(table.Keys, cursor) {
      var id: nat := LeastAbove(table.Keys, cursor);
      PageIsGapless(table, id, limit - 1);
      GaplessStep(table, cursor, id, Page(table, id, limit - 1));
    }
  }

  /** Later commits have higher ids and a pruned row does not come back, so an extract stays one. */
  lemma ExtractStays(s: System, t: System, ms: seq<Message>, low: nat, high: nat)
    requires Extract(s, ms, low, high) && s.now <= t.now && s.settled <= t.settled
    requires forall id | id in s.log :: id in t.log && t.log[id] == s.log[id]
    requires forall id | id in t.log && id !in s.log :: id > s.settled
    requires forall id | id in s.log && id !in s.table :: id !in t.table
    ensures Extract(t, ms, low, high)
  {
  }

  ghost predicate Grows(s: System, t: System) {
    && s.now <= t.now && s.settled <= t.settled
    && (forall id | id in s.log :: id in t.log && t.log[id] == s.log[id])
    && (forall id | id in t.log && id !in s.log :: id > s.settled)
    && (forall id | id in s.log && id !in s.table :: id !in t.table)
  }

  lemma SubscriberStays(s: System, t: System, u: Subscriber)
    requires SubscriberInv(s, u) && Grows(s, t)
    ensures SubscriberInv(t, u)
  {
    ExtractStays(s, t, u.dispatched, u.origin, u.cursor);
    if u.drain.Fetched? {
      ExtractStays(s, t, u.drain.page, u.cursor, PageEnd(u.drain.page, u.cursor));
    }
  }

  lemma LogStep(s: System, e: Event)
    requires LogInv(s) && Enabled(s, e)
    ensures LogInv(Next(s, e)) && Grows(s, Next(s, e))
  {
    hide Page, Deliver, IsMaxId, Publishable;
  }

  lemma TableStep(s: System, e: Event)
    requires LogInv(s) && TableInv(s) && Enabled(s, e)
    ensures TableInv(Next(s, e))
  {
    hide Page, Deliver, IsMaxId, Publishable, RowOf;
  }

  lemma QueryExtracts(s: System, cursor: nat)
    requires LogInv(s) && TableInv(s) && cursor <= s.settled
    ensures var page := Page(s.table, cursor, PAGE_LIMIT); Extract(s, page, cursor, PageEnd(page, cursor))
  {
    PageIsGapless(s.table, cursor, PAGE_LIMIT);
    var page := Page(s.table, cursor, PAGE_LIMIT);
    if page != [] {
      assert page[|page| - 1].id in s.log;
      assert forall k | 0 <= k < |page| :: page[k].id <= page[|page| - 1].id;
    }
  }

  /** With valid topics the loop delivers the whole page. */
  lemma {:induction false} DeliverIsWhole(u: Subscriber, page: seq<Message>)
    requires forall k | 0 <= k < |page| :: ValidTopic(page[k].draft.topic)
    ensures Deliver(u, page) == u.(drain := Quiet, cursor := PageEnd(page, u.cursor), dispatched := u.dispatched + page)
    decreases |page|
  {
    if page == [] {
      assert u.dispatched + page == u.dispatched;
    } else {
      DeliverIsWhole(u.(cursor := page[0].id, dispatched := u.dispatched + [page[0]]), page[1..]);
      assert u.dispatched + [page[0]] + page[1..] == u.dispatched + page;
    }
  }

  lemma ExtractsJoin(s: System, ms: seq<Message>, ns: seq<Message>, low: nat, mid: nat, high: nat)
    requires Extract(s, ms, low, mid) && Extract(s, ns, mid, high)
    ensures Extract(s, ms + ns, low, high)
  {
    var both := ms + ns;
    forall id | id in s.log && low < id <= high ensures s.log[id] in both || id !in s.table {
      if id <= mid {
        assert s.log[id] in ms || id !in s.table;
      } else {
        assert s.log[id] in ns || id !in s.table;
      }
    }
  }

  lemma DeliverKeeps(s: System, u: Subscriber)
    requires LogInv(s) && SubscriberInv(s, u) && u.drain.Fetched?
    ensures Deliver(u, u.drain.page) ==
            u.(drain := Quiet, cursor := PageEnd(u.drain.page, u.cursor), dispatched := u.dispatched + u.drain.page)
    ensures SubscriberInv(s, Deliver(u, u.drain.page))
  {
    var page := u.drain.page;
    forall k | 0 <= k < |page| ensures ValidTopic(page[k].draft.topic) {
      assert RowOf(s.log, page[k].id, s.now);
    }
    DeliverIsWhole(u, page);
    ExtractsJoin(s, u.dispatched, page, u.origin, u.cursor, PageEnd(page, u.cursor));
  }

  lemma StartKeeps(s: System, newest: nat)
    requires LogInv(s) && TableInv(s) && IsMaxId(s.table, newest)
    ensures SubscriberInv(s, Subscriber(newest, newest, Quiet, false, []))
  {
  }

  lemma StepKeepsSubscriber(s: System, e: Event, who: nat)
    requires Inv(s) && Enabled(s, e) && who in Next(s, e).subscribers
    requires LogInv(Next(s, e)) && TableInv(Next(s, e)) && Grows(s, Next(s, e))
    ensures SubscriberInv(Next(s, e), Next(s, e).subscribers[who])
  {
    var t := Next(s, e);
    if who in s.subscribers {
      SubscriberStays(s, t, s.subscribers[who]);
      if e == Query(who) {
        QueryExtracts(t, s.subscribers[who].cursor);
      } else if e == DeliverPage(who) {
        DeliverKeeps(t, s.subscribers[who]);
      }
    } else {
      StartKeeps(t, t.subscribers[who].origin);
    }
  }

  lemma StepKeepsInv(s: System, e: Event)
    requires Inv(s)
    ensures Inv(Next(s, e))
  {
    if Enabled(s, e) {
      LogStep(s, e);
      TableStep(s, e);
      forall who | who in Next(s, e).subscribers ensures SubscriberInv(Next(s, e), Next(s, e).subscribers[who]) {
        StepKeepsSubscriber(s, e, who);
      }
    }
  }

  lemma {:induction false} RunKeepsInv(s: System, es: seq<Event>)
    requires Inv(s)
    ensures Inv(Run(s, es))
    decreases |es|
  {
    if es != [] {
      StepKeepsInv(s, es[0]);
      RunKeepsInv(Next(s, es[0]), es[1..]);
    }
  }

  // ---------------------------------------------------------------- main results

  /** In every run an id still in flight is larger than every committed id. */
  lemma InFlightAboveCommitted(s: System, es: seq<Event>, committed: nat, inFlight: nat)
    requires Initial(s)
    requires var t := Run(s, es); committed in t.log && t.staged.Some? && inFlight in t.staged.value
    ensures committed < inFlight
  {
    RunKeepsInv(s, es);
  }

  /**
   In every run each subscriber has dispatched, in strictly increasing id order, committed
   messages after its starting cursor; and every row of the table that the cursor has passed was
   dispatched. A committed message is missing from the table only when it is more than seven days
   old.
   */
  lemma DispatchedOnceInOrder(s: System, es: seq<Event>, who: nat)
    requires Initial(s) && who in Run(s, es).subscribers
    ensures var t := Run(s, es);
            var u := t.subscribers[who];
            && Ascending(u.dispatched)
            && (forall k | 0 <= k < |u.dispatched| ::
                  var m := u.dispatched[k]; u.origin < m.id <= u.cursor && m.id in t.log && t.log[m.id] == m)
            && (forall id | id in t.table && u.origin < id <= u.cursor :: id in t.log && t.log[id] in u.dispatched)
            && (forall id | id in t.log && id !in t.table :: t.log[id].publishedAt < t.now - RETENTION_MS)
  {
    RunKeepsInv(s, es);
    assert SubscriberInv(Run(s, es), Run(s, es).subscribers[who]);
  }

  /** In every run a committed message stays in the table for seven days from its publication. */
  lemma CommittedIsKept(s: System, es: seq<Event>, id: nat)
    requires Initial(s)
    requires var t := Run(s, es); id in t.log && t.now - RETENTION_MS <= t.log[id].publishedAt
    ensures id in Run(s, es).table && Run(s, es).table[id] == Run(s, es).log[id]
  {
    RunKeepsInv(s, es);
  }

  lemma StepOnlyAppends(s: System, e: Event, who: nat)
    requires Inv(s) && who in s.subscribers
    ensures who in Next(s, e).subscribers
    ensures var u, v := s.subscribers[who], Next(s, e).subscribers[who];
            v.origin == u.origin && u.cursor <= v.cursor && u.dispatched <= v.dispatched
  {
    hide Page, Deliver, ValidTopic;
    assert SubscriberInv(s, s.subscribers[who]);
    if e == DeliverPage(who) && Enabled(s, e) {
      DeliverKeeps(s, s.subscribers[who]);
    }
  }

  /** What was dispatched is never taken back, and the cursor never moves back. */
  lemma {:induction false} DispatchedIsForever(s: System, es: seq<Event>, who: nat)
    requires Inv(s) && who in s.subscribers
    ensures who in Run(s, es).subscribers
    ensures var u, v := s.subscribers[who], Run(s, es).subscribers[who];
            v.origin == u.origin && u.cursor <= v.cursor && u.dispatched <= v.dispatched
    decreases |es|
  {
    if es != [] {
      StepOnlyAppends(s, es[0], who);
      StepKeepsInv(s, es[0]);
      DispatchedIsForever(Next(s, es[0]), es[1..], who);
    }
  }

  ghost function Above(table: Table, cursor: nat): set<nat> {
    set id | id in table && id > cursor
  }

  /** A page takes as many rows as the limit allows and leaves the others above its end. */
  lemma {:induction false} PageCount(table: Table, cursor: nat, limit: nat)
    requires forall id | id in table :: table[id].id == id
    ensures var page := Page(table, cursor, limit);
            && |page| + |Above(table, PageEnd(page, cursor))| == |Above(table, cursor)|
            && |page| == if |Above(table, cursor)| < limit then |Above(table, cursor)| else limit
    decreases limit
  {
    if limit == 0 {
    } else if HasAbove(table.Keys, cursor) {
      var id: nat := LeastAbove(table.Keys, cursor);
      assert Above(table, cursor) == {id} + Above(table, id);
      PageCount(table, id, limit - 1);
      assert PageEnd(Page(table, cursor, limit), cursor) == PageEnd(Page(table, id, limit - 1), id);
    } else {
      assert Above(table, cursor) == {};
    }
  }

  /** The state after a drain that nothing interrupts. */
  ghost function Drained(s: System, who: nat): System {
    Next(Next(Next(s, BeginDrain(who)), Query(who)), DeliverPage(who))
  }

  lemma DrainedIs(s: System, who: nat)
    requires Inv(s) && Enabled(s, BeginDrain(who))
    ensures var u := s.subscribers[who];
            var page := Page(s.table, u.cursor, PAGE_LIMIT);
            Drained(s, who) == With(s, who, u.(cursor := PageEnd(page, u.cursor), dispatched := u.dispatched + page))
  {
    var u := s.subscribers[who];
    var fetched := u.(drain := Fetched(Page(s.table, u.cursor, PAGE_LIMIT)));
    FetchedIs(s, who, fetched);
    assert SubscriberInv(s, u);
    QueryExtracts(s, u.cursor);
    DeliverKeeps(s, fetched);
    Rewritten(s, who, fetched, Deliver(fetched, fetched.drain.page));
  }

  lemma Rewritten(s: System, who: nat, u: Subscriber, v: Subscriber)
    ensures With(With(s, who, u), who, v) == With(s, who, v)
  {
    assert s.subscribers[who := u][who := v] == s.subscribers[who := v];
  }

  lemma FetchedIs(s: System, who: nat, fetched: Subscriber)
    requires Enabled(s, BeginDrain(who))
    requires fetched == s.subscribers[who].(drain := Fetched(Page(s.table, s.subscribers[who].cursor, PAGE_LIMIT)))
    ensures Next(Next(s, BeginDrain(who)), Query(who)) == With(s, who, fetched)
  {
  }

  /** An undisturbed drain delivers the first 512 pending rows, or all of them when fewer. */
  lemma DrainShrinksBacklog(s: System, who: nat)
    requires Inv(s) && Enabled(s, BeginDrain(who))
    ensures var t := Drained(s, who);
            && Enabled(t, BeginDrain(who)) && t.table == s.table
            && (var before, after := |Above(s.table, s.subscribers[who].cursor)|, |Above(t.table, t.subscribers[who].cursor)|;
                && after == (if before <= 512 then 0 else before - 512)
                && |t.subscribers[who].dispatched| - |s.subscribers[who].dispatched| == before - after)
  {
    hide Drained, Page, Inv, Above, Next, PageEnd;
    assert forall id | id in s.table :: s.table[id].id == id by { TableIds(s); }
    DrainedIs(s, who);
    PageCount(s.table, s.subscribers[who].cursor, PAGE_LIMIT);
  }

  lemma TableIds(s: System)
    requires Inv(s)
    ensures forall id | id in s.table :: s.table[id].id == id
  {
    assert forall id | id in s.table :: id in s.log && RowOf(s.log, id, s.now);
  }

  ghost function DrainedTimes(s: System, who: nat, n: nat): System
    decreases n
  {
    if n == 0 then s else DrainedTimes(Drained(s, who), who, n - 1)
  }

  lemma DrainKeeps(s: System, who: nat)
    requires Inv(s) && Enabled(s, BeginDrain(who))
    ensures var t := Drained(s, who);
            Inv(t) && Enabled(t, BeginDrain(who)) && t.table == s.table && t.subscribers[who].origin == s.subscribers[who].origin
  {
    hide Next, Inv;
    StepKeepsInv(s, BeginDrain(who));
    StepKeepsInv(Next(s, BeginDrain(who)), Query(who));
    StepKeepsInv(Next(Next(s, BeginDrain(who)), Query(who)), DeliverPage(who));
    DrainedIs(s, who);
  }

  lemma NoBacklog(s: System, who: nat)
    requires Inv(s) && who in s.subscribers && |Above(s.table, s.subscribers[who].cursor)| == 0
    ensures forall id | id in s.table && s.subscribers[who].origin < id :: s.table[id] in s.subscribers[who].dispatched
  {
    var u := s.subscribers[who];
    assert SubscriberInv(s, u);
    forall id | id in s.table && u.origin < id ensures s.table[id] in u.dispatched {
      assert id !in Above(s.table, u.cursor);
    }
  }

  /** Enough drains in a row dispatch everything in the table after the starting cursor. */
  lemma {:induction false} DrainsCatchUp(s: System, who: nat, n: nat)
    requires Inv(s) && Enabled(s, BeginDrain(who)) && |Above(s.table, s.subscribers[who].cursor)| <= n * 512
    ensures var t := DrainedTimes(s, who, n);
            && who in t.subscribers && t.table == s.table && t.subscribers[who].origin == s.subscribers[who].origin
            && forall id | id in t.table && t.subscribers[who].origin < id :: t.table[id] in t.subscribers[who].dispatched
    decreases n
  {
    hide Drained, Inv, Above, Page;
    if n == 0 {
      NoBacklog(s, who);
    } else {
      DrainShrinksBacklog(s, who);
      DrainKeeps(s, who);
      DrainsCatchUp(Drained(s, who), who, n - 1);
    }
  }

  // ---------------------------------------------------------------- what is published is delivered

  /** What a publisher asked for, and when. */
  datatype Publication = Publication(draft: Draft, at: int)

  /** The accepted insertions among the events, in order. */
  ghost function Inserted(s: System, es: seq<Event>): seq<Publication>
    decreases |es|
  {
    if es == [] then []
    else (if es[0].Insert? && Publishable(es[0].draft) then [Publication(es[0].draft, s.now)] else []) + Inserted(Next(s, es[0]), es[1..])
  }

  /** The table has these publications under these ids. */
  ghost predicate Holds(t: Table, ids: seq<nat>, ps: seq<Publication>) {
    && |ids| == |ps| && (forall j, k | 0 <= j < k < |ids| :: ids[j] < ids[k])
    && (forall k | 0 <= k < |ids| :: ids[k] in t && t[ids[k]] == Message(ids[k], ps[k].draft, ps[k].at))
  }

  /** The open transaction has inserted exactly these. */
  ghost predicate Staged(s: System, ids: seq<nat>, ps: seq<Publication>) {
    s.staged.Some? && Holds(s.staged.value, ids, ps) && forall id | id in s.staged.value :: id in ids
  }

  predicate NoneEnds(es: seq<Event>) {
    forall k | 0 <= k < |es| :: !es[k].End?
  }

  lemma InsertStages(s: System, e: Event, ids: seq<nat>, ps: seq<Publication>)
    requires LogInv(s) && Staged(s, ids, ps) && e.Insert? && Publishable(e.draft)
    ensures Staged(Next(s, e), ids + [s.nextId + e.skipped], ps + [Publication(e.draft, s.now)])
    ensures Next(s, e).log == s.log && Next(s, e).settled == s.settled
  {
    hide Publishable, RowOf;
    assert forall k | 0 <= k < |ids| :: ids[k] < s.nextId;
  }

  lemma OtherStages(s: System, e: Event, ids: seq<nat>, ps: seq<Publication>)
    requires Staged(s, ids, ps) && !e.End? && !(e.Insert? && Publishable(e.draft))
    ensures Staged(Next(s, e), ids, ps) && Next(s, e).log == s.log && Next(s, e).settled == s.settled
  {
    hide Holds, Publishable, Page, Deliver, IsMaxId;
  }

  /** While a transaction is open, whatever else happens, it holds exactly what was inserted. */
  lemma {:induction false} RunStages(s: System, es: seq<Event>, ids: seq<nat>, ps: seq<Publication>) returns (all: seq<nat>)
    requires Inv(s) && Staged(s, ids, ps) && NoneEnds(es)
    ensures Staged(Run(s, es), all, ps + Inserted(s, es)) && Run(s, es).log == s.log && Run(s, es).settled == s.settled && Inv(Run(s, es))
    decreases |es|
  {
    hide Next, Staged, Inv, Publishable;
    if es == [] {
      all := ids;
      assert ps + [] == ps;
    } else {
      var e := es[0];
      assert NoneEnds(es[1..]) && !e.End?;
      StepKeepsInv(s, e);
      if e.Insert? && Publishable(e.draft) {
        InvHasLog(s);
        InsertStages(s, e, ids, ps);
        all := RunStages(Next(s, e), es[1..], ids + [s.nextId + e.skipped], ps + [Publication(e.draft, s.now)]);
        assert ps + [Publication(e.draft, s.now)] + Inserted(Next(s, e), es[1..]) == ps + Inserted(s, es);
      } else {
        OtherStages(s, e, ids, ps);
        all := RunStages(Next(s, e), es[1..], ids, ps);
        assert Inserted(s, es) == Inserted(Next(s, e), es[1..]);
      }
    }
  }

  lemma InvHasLog(s: System)
    requires Inv(s)
    ensures LogInv(s) && TableInv(s)
  {
  }

  /** The state of the open transaction after taking the lock and the given events. */
  ghost function Opened(s: System, es: seq<Event>): System {
    Run(Next(s, Lock), es)
  }

  lemma OpenedStages(s: System, es: seq<Event>) returns (ids: seq<nat>)
    requires Inv(s) && s.staged.None? && NoneEnds(es)
    ensures Staged(Opened(s, es), ids, Inserted(Next(s, Lock), es)) && Inv(Opened(s, es))
    ensures Opened(s, es).log == s.log && Opened(s, es).settled == s.settled
  {
    var open := Next(s, Lock);
    StepKeepsInv(s, Lock);
    assert Staged(open, [], []);
    ids := RunStages(open, es, [], []);
    assert [] + Inserted(open, es) == Inserted(open, es);
  }

  function IdSet(ids: seq<nat>): set<nat> { set id | id in ids }

  lemma CommitStep(s: System, ids: seq<nat>, ps: seq<Publication>)
    requires Inv(s) && Staged(s, ids, ps)
    ensures var u := Next(s, End(true));
            && Holds(u.log, ids, ps) && Holds(u.table, ids, ps) && u.log.Keys == s.log.Keys + IdSet(ids)
            && (forall id | id in s.log :: u.log[id] == s.log[id]) && (forall k | 0 <= k < |ids| :: ids[k] !in s.log && ids[k] > s.settled)
            && (forall id | id in s.table :: id in u.table)
            && u.subscribers == s.subscribers && u.staged.None?
  {
    hide RowOf;
  }

  /**
   Publishing, from any state that runs keep: lock, any insertions with anything else in between,
   and commit. Afterwards the log and the table hold each accepted draft, at the time of its
   insertion, exactly once, under new ids in the order of insertion, and the log nothing else new.
   */
  lemma CommitPublishes(s: System, es: seq<Event>) returns (ids: seq<nat>)
    requires Inv(s) && s.staged.None? && NoneEnds(es)
    ensures var u := Next(Opened(s, es), End(true));
            var ps := Inserted(Next(s, Lock), es);
            && Holds(u.log, ids, ps) && Holds(u.table, ids, ps) && u.log.Keys == s.log.Keys + IdSet(ids)
            && (forall id | id in s.log :: u.log[id] == s.log[id]) && (forall k | 0 <= k < |ids| :: ids[k] !in s.log)
  {
    hide Next, Opened, Holds, Inv;
    ids := OpenedStages(s, es);
    CommitStep(Opened(s, es), ids, Inserted(Next(s, Lock), es));
  }

  /** An id that was drawn and will never be committed. */
  ghost predicate Spent(s: System, id: nat) {
    id < s.nextId && id !in s.log && (s.staged.Some? ==> id !in s.staged.value)
  }

  lemma StepKeepsSpent(s: System, e: Event, id: nat)
    requires Spent(s, id)
    ensures Spent(Next(s, e), id)
  {
    hide Page, Deliver, IsMaxId, Publishable;
  }

  lemma {:induction false} RunKeepsSpent(s: System, es: seq<Event>, id: nat)
    requires Spent(s, id)
    ensures Spent(Run(s, es), id)
    decreases |es|
  {
    hide Next, Spent;
    if es != [] {
      StepKeepsSpent(s, es[0], id);
      RunKeepsSpent(Next(s, es[0]), es[1..], id);
    }
  }

  lemma RollbackStep(s: System, ids: seq<nat>, ps: seq<Publication>)
    requires Inv(s) && Staged(s, ids, ps)
    ensures var u := Next(s, End(false)); u.log == s.log && u.table == s.table && forall k | 0 <= k < |ids| :: Spent(u, ids[k])
  {
    hide RowOf;
  }

  /** After a rollback nothing that was inserted is in the log, then or ever. */
  lemma RollbackPublishesNothing(s: System, es: seq<Event>, more: seq<Event>) returns (ids: seq<nat>)
    requires Inv(s) && s.staged.None? && NoneEnds(es)
    ensures Staged(Opened(s, es), ids, Inserted(Next(s, Lock), es))
    ensures var u := Next(Opened(s, es), End(false));
            u.log == s.log && forall k | 0 <= k < |ids| :: ids[k] !in Run(u, more).log
  {
    hide Next, Opened, Inv, Run;
    ids := OpenedStages(s, es);
    RollbackStep(Opened(s, es), ids, Inserted(Next(s, Lock), es));
    forall k | 0 <= k < |ids| ensures ids[k] !in Run(Next(Opened(s, es), End(false)), more).log {
      RunKeepsSpent(Next(Opened(s, es), End(false)), more, ids[k]);
    }
  }

  /**
   A subscriber that had started before the transaction dispatches every draft it committed,
   unchanged, once enough drains follow.
   */
  lemma PublishedIsDispatched(s: System, es: seq<Event>, who: nat, n: nat, k: nat) returns (id: nat)
    requires Inv(s) && s.staged.None? && NoneEnds(es) && who in s.subscribers && k < |Inserted(Next(s, Lock), es)|
    requires var u := Next(Opened(s, es), End(true));
             Enabled(u, BeginDrain(who)) && |Above(u.table, u.subscribers[who].cursor)| <= n * 512
    ensures var t := DrainedTimes(Next(Opened(s, es), End(true)), who, n);
            var p := Inserted(Next(s, Lock), es)[k];
            who in t.subscribers && Message(id, p.draft, p.at) in t.subscribers[who].dispatched
  {
    hide Next, Inv, Above, Drained, DrainedTimes, SubscriberInv, Run;
    var t := Opened(s, es);
    var u := Next(t, End(true));
    var ids := OpenedStages(s, es);
    CommitStep(t, ids, Inserted(Next(s, Lock), es));
    id := ids[k];
    StepKeepsInv(t, End(true));
    OriginIsOld(s, es, who);
    DrainsCatchUp(u, who, n);
  }

  lemma OriginIsOld(s: System, es: seq<Event>, who: nat)
    requires Inv(s) && who in s.subscribers
    ensures var t := Opened(s, es); who in t.subscribers && t.subscribers[who].origin <= s.settled
  {
    assert SubscriberInv(s, s.subscribers[who]);
    StepKeepsInv(s, Lock);
    StepOnlyAppends(s, Lock, who);
    DispatchedIsForever(Next(s, Lock), es, who);
  }

  /** The topics the services publish under, and the exact size limits. */
  lemma ServiceTopicsArePublishable(key: string, payload: seq<int>)
    ensures Publishable(Draft("jobs", key, payload)) <==> |key| <= 200 && |payload| <= 7000
    ensures Publishable(Draft("workers", key, payload)) <==> |key| <= 200 && |payload| <= 7000
    ensures !Publishable(Draft("", key, payload)) && !Publishable(Draft("Jobs", key, payload)) && !Publishable(Draft("jobs/x", key, payload))
  {
    assert "jobs/x"[4] == '/';
  }

  // ---------------------------------------------------------------- starting, stopping, failing, pruning

  /** A subscriber is only ever given what was committed after it started: no row that was in the table then. */
  lemma StartSkipsOlder(s: System, who: nat, newest: nat, es: seq<Event>)
    requires Inv(s) && who !in s.subscribers && IsMaxId(s.table, newest)
    ensures var t := Run(Next(s, Start(who, newest)), es);
            who in t.subscribers && forall k | 0 <= k < |t.subscribers[who].dispatched| :: t.subscribers[who].dispatched[k].id !in s.table
  {
    var u := Next(s, Start(who, newest));
    assert u.subscribers[who].origin == newest;
    StepKeepsInv(s, Start(who, newest));
    RunKeepsInv(u, es);
    DispatchedIsForever(u, es, who);
    assert SubscriberInv(Run(u, es), Run(u, es).subscribers[who]);
  }

  /** A started subscriber is idle and can drain. */
  lemma StartedCanDrain(s: System, who: nat, newest: nat)
    requires who !in s.subscribers && IsMaxId(s.table, newest)
    ensures Enabled(Next(s, Start(who, newest)), BeginDrain(who))
  {
  }

  ghost predicate Resting(s: System, who: nat, dispatched: seq<Message>) {
    who in s.subscribers && s.subscribers[who].stopped && s.subscribers[who].drain.Quiet? && s.subscribers[who].dispatched == dispatched
  }

  lemma StepKeepsResting(s: System, e: Event, who: nat, dispatched: seq<Message>)
    requires Resting(s, who, dispatched)
    ensures Resting(Next(s, e), who, dispatched)
  {
    hide Page, Deliver, IsMaxId, Publishable;
  }

  lemma {:induction false} RunKeepsResting(s: System, es: seq<Event>, who: nat, dispatched: seq<Message>)
    requires Resting(s, who, dispatched)
    ensures Resting(Run(s, es), who, dispatched)
    decreases |es|
  {
    hide Next, Resting;
    if es != [] {
      StepKeepsResting(s, es[0], who, dispatched);
      RunKeepsResting(Next(s, es[0]), es[1..], who, dispatched);
    }
  }

  /** After a shutdown outside a drain nothing more is dispatched, ever. */
  lemma ShutdownIsFinal(s: System, who: nat, es: seq<Event>)
    requires who in s.subscribers && s.subscribers[who].drain.Quiet?
    ensures var t := Run(Next(s, Shutdown(who)), es);
            who in t.subscribers && t.subscribers[who].dispatched == s.subscribers[who].dispatched
  {
    RunKeepsResting(Next(s, Shutdown(who)), es, who, s.subscribers[who].dispatched);
  }

  /** A failed drain loses nothing: the subscriber can drain again from the same cursor. */
  lemma FailedDrainIsRetried(s: System, who: nat)
    requires who in s.subscribers && !s.subscribers[who].drain.Quiet? && !s.subscribers[who].stopped
    ensures var t := Next(s, FailDrain(who));
            && Enabled(t, BeginDrain(who)) && t.table == s.table
            && t.subscribers[who].cursor == s.subscribers[who].cursor && t.subscribers[who].dispatched == s.subscribers[who].dispatched
  {
  }

  /** Maintenance deletes exactly the rows published more than seven days ago. */
  lemma MaintenanceDeletesOld(s: System, id: nat)
    ensures id in Next(s, Maintain).table <==> id in s.table && s.now - s.table[id].publishedAt <= 7 * 24 * 3600 * 1000
    ensures id in Next(s, Maintain).table ==> Next(s, Maintain).table[id] == s.table[id]
    ensures Next(s, Maintain).log == s.log
  {
  }

  // ---------------------------------------------------------------- the object

  /** The reading side of one control plane: its fields, and the loop of `drainEvents`. */
  class EventReader {
    const origin: nat
    var cursor: nat
    var draining: bool
    var stopped: bool
    var dispatched: seq<Message>

    constructor (newest: nat)
      ensures origin == cursor == newest && !draining && !stopped && dispatched == []
    {
      origin, cursor, draining, stopped, dispatched := newest, newest, false, false, [];
    }

    ghost function View(page: seq<Message>): Subscriber
      reads this
    {
      Subscriber(origin, cursor, if draining then Fetched(page) else Quiet, stopped, dispatched)
    }

    method BeginDrain() returns (query: bool)
      modifies this`draining
      ensures query == (!old(stopped) && !old(draining))
      ensures draining == (old(draining) || query)
    {
      if stopped || draining {
        return false;
      }
      draining := true;
      return true;
    }

    method DeliverRows(page: seq<Message>)
      requires draining
      modifies this`cursor, this`dispatched, this`draining
      ensures View(page) == Deliver(old(View(page)), page)
    {
      var k := 0;
      while k < |page|
        invariant 0 <= k <= |page| && draining
        invariant Deliver(View(page), page[k..]) == Deliver(old(View(page)), page)
      {
        cursor := page[k].id;
        if !ValidTopic(page[k].draft.topic) {
          break;
        }
        dispatched := dispatched + [page[k]];
        assert page[k..][1..] == page[k + 1..];
        k := k + 1;
      }
      draining := false;
    }
  }
}
