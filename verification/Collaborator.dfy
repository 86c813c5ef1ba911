/**
 `OastService.handleDns` as a whole: from the bytes of a query over the lease identity in its name
 to the store's evidence and the reply the client reads.

 A query here has passed the rate limiter.
 */
module Collaborator {
  import opened Common
  import opened Bytes
  import opened DnsName
  import opened DnsQuery
  import opened DnsReader
  import opened DnsAnswer
  import opened DnsContent
  import Lease = OastLease
  import Tcp = TcpReassembly

  /** How lease ids and signatures are written: 32 hex digits each. */
  datatype Naming = Naming(id: Lease.LeaseId -> seq<byte>, signature: Lease.Signature -> seq<byte>)

  /** Random ids do not collide; signatures may. */
  ghost predicate Faithful(n: Naming, ids: set<Lease.LeaseId>) {
    && (forall l | l in ids :: HexText(n.id(l)))
    && (forall a, b | a in ids && b in ids && n.id(a) == n.id(b) :: a == b)
    && (forall g :: HexText(n.signature(g)))
  }

  function DnsSignature(leases: Lease.Leases, l: Lease.LeaseId): Lease.Signature
    requires l in leases
  {
    Lease.Signature(l, leases[l].expires, Lease.Dns)
  }

  function IdentityFor(n: Naming, leases: Lease.Leases, l: Lease.LeaseId): Identity
    requires l in leases
  {
    Identity(n.id(l), n.signature(DnsSignature(leases, l)))
  }

  /** `validateIdentity` finds this row for the identity text. */
  predicate Matches(n: Naming, leases: Lease.Leases, id: Identity, now: int, l: Lease.LeaseId) {
    && l in leases && n.id(l) == id.leaseId && n.signature(DnsSignature(leases, l)) == id.signature
    && Lease.ValidIdentity(leases, l, DnsSignature(leases, l), Lease.Dns, now)
  }

  ghost function Found(n: Naming, leases: Lease.Leases, id: Identity, now: int): (r: Option<Lease.LeaseId>)
    ensures r.Some? ==> Matches(n, leases, id, now, r.value)
    ensures r.None? ==> forall l :: !Matches(n, leases, id, now, l)
  {
    if l :| Matches(n, leases, id, now, l) then
      var l :| Matches(n, leases, id, now, l);
      Some(l)
    else None
  }

  /** The lease a query addresses and is valid for. */
  ghost function LeaseOf(n: Naming, c: Config, s: Lease.System, m: seq<byte>): Option<Lease.LeaseId> {
    match Parse(m)
    case None => None
    case Some(p) => match IdentityOf(p.name, Zone(c))
      case None => None
      case Some(id) => Found(n, s.leases, id, s.now)
  }

  /** What a query does to the store: nothing, or validation and then a record. */
  ghost function StoreEvents(n: Naming, c: Config, s: Lease.System, m: seq<byte>, details: Lease.Details): seq<Lease.Event> {
    match LeaseOf(n, c, s, m)
    case None => []
    case Some(l) =>
      if l !in s.leases then []
      else [Lease.Validate(l, DnsSignature(s.leases, l), Lease.Dns), Lease.Record(|s.validated|, details)]
  }

  ghost function HandleDns(n: Naming, c: Config, s: Lease.System, m: seq<byte>, details: Lease.Details): Lease.System {
    Lease.Run(s, StoreEvents(n, c, s, m, details))
  }

  /** The reply, or nothing for a message that is not a query. */
  ghost function ReplyTo(n: Naming, c: Config, s: Lease.System, m: seq<byte>, tcp: bool): Option<seq<byte>>
    requires Valid(c)
  {
    if Parse(m).None? then None
    else
      var valid := LeaseOf(n, c, s, m).Some?;
      ParsedFits(m, valid, c);
      Some(Reply(m, Parse(m).value, valid, c, tcp))
  }

  // ---------------------------------------------------------------- which queries are recorded

  /** The query asks for this lease's callback name, and the lease takes DNS callbacks now. */
  ghost predicate Addresses(n: Naming, c: Config, s: Lease.System, m: seq<byte>, l: Lease.LeaseId) {
    && Parse(m).Some? && l in s.leases
    && Parse(m).value.name == CallbackName(IdentityFor(n, s.leases, l), Zone(c))
    && Lease.Usable(s.leases, l, s.now) && Lease.Dns in s.leases[l].protocols
  }

  lemma IssuedIsFaithful(n: Naming, s: Lease.System)
    requires Lease.Inv(s) && Faithful(n, s.issued.Keys)
    ensures Faithful(n, s.leases.Keys)
  {
    assert Lease.LeaseInv(s);
  }

  lemma ZoneIsLower(c: Config)
    ensures Lower(Zone(c)) == Zone(c)
  {
    LowerTwice(c.baseDomain);
  }

  lemma MatchesIff(n: Naming, c: Config, s: Lease.System, name: seq<byte>, l: Lease.LeaseId)
    requires Lease.Inv(s) && Faithful(n, s.issued.Keys) && l in s.leases
    ensures (IdentityOf(name, Zone(c)).Some? && Matches(n, s.leases, IdentityOf(name, Zone(c)).value, s.now, l)) <==>
            && name == CallbackName(IdentityFor(n, s.leases, l), Zone(c))
            && Lease.Usable(s.leases, l, s.now) && Lease.Dns in s.leases[l].protocols
  {
    hide IdentityOf, CallbackName, HexText, Zone;
    IssuedIsFaithful(n, s);
    ZoneIsLower(c);
    var id := IdentityFor(n, s.leases, l);
    IdentityOfCallback(id, Zone(c));
    if IdentityOf(name, Zone(c)).Some? {
      IdentityIsExact(name, Zone(c), IdentityOf(name, Zone(c)).value);
    }
  }

  /** A query is valid for a lease if and only if it asks for that lease's own callback name while the lease is usable. */
  lemma LeaseOfIff(n: Naming, c: Config, s: Lease.System, m: seq<byte>, l: Lease.LeaseId)
    requires Lease.Inv(s) && Faithful(n, s.issued.Keys)
    ensures LeaseOf(n, c, s, m) == Some(l) <==> Addresses(n, c, s, m, l)
  {
    hide Parse, IdentityOf, CallbackName, HexText;
    IssuedIsFaithful(n, s);
    if Parse(m).Some? {
      var name := Parse(m).value.name;
      if l in s.leases { MatchesIff(n, c, s, name, l); }
      if IdentityOf(name, Zone(c)).Some? {
        var found := Found(n, s.leases, IdentityOf(name, Zone(c)).value, s.now);
        if found.Some? && l in s.leases && n.id(l) == IdentityOf(name, Zone(c)).value.leaseId {
          assert found.value == l;
        }
      }
    }
  }

  /** The store takes this lease's DNS callback: it has none yet, and its limit is not reached. */
  predicate Open(s: Lease.System, l: Lease.LeaseId) {
    Lease.Key(l, Lease.Dns) !in s.events && |Lease.ProtocolsSeen(s.events, l)| < s.limits.maxEventsPerLease
  }

  /** The query `m` is recorded for `l`, and the state after it is `t`. */
  ghost predicate Accepts(n: Naming, c: Config, s: Lease.System, m: seq<byte>, details: Lease.Details, l: Lease.LeaseId, t: Lease.System) {
    Addresses(n, c, s, m, l) && Open(s, l) && t.history == s.history + [Lease.Accepted(Lease.Key(l, Lease.Dns), s.now, details)]
  }

  lemma RunBoth(s: Lease.System, a: Lease.Event, b: Lease.Event)
    ensures Lease.Run(s, [a, b]) == Lease.Next(Lease.Next(s, a), b)
  {
    hide Lease.Next;
    assert [a, b][1..] == [b] && [b][1..] == [];
    assert Lease.Run(s, [a, b]) == Lease.Run(Lease.Next(s, a), [a, b][1..]);
    assert Lease.Run(Lease.Next(s, a), [b]) == Lease.Run(Lease.Next(Lease.Next(s, a), b), [b][1..]);
  }

  lemma RecordedStep(n: Naming, s: Lease.System, l: Lease.LeaseId, details: Lease.Details)
    requires Lease.Usable(s.leases, l, s.now) && Lease.Dns in s.leases[l].protocols
    ensures var t := Lease.Run(s, [Lease.Validate(l, DnsSignature(s.leases, l), Lease.Dns), Lease.Record(|s.validated|, details)]);
            t.history == if Open(s, l) then s.history + [Lease.Accepted(Lease.Key(l, Lease.Dns), s.now, details)] else s.history
  {
    hide Lease.ProtocolsSeen, Lease.Run;
    var a, b := Lease.Validate(l, DnsSignature(s.leases, l), Lease.Dns), Lease.Record(|s.validated|, details);
    RunBoth(s, a, b);
    var v := Lease.Next(s, a);
    assert v.validated[|s.validated|] == Lease.Validated(Lease.Key(l, Lease.Dns), s.leases[l].created);
  }

  /**
   For every message and every state that runs keep: a query is accepted as evidence for a lease
   if and only if it is a well-formed query for that lease's callback name, the lease is usable
   for DNS and has no DNS evidence yet. Any other message leaves the history as it is.
   */
  lemma RecordedIff(n: Naming, c: Config, s: Lease.System, m: seq<byte>, details: Lease.Details, l: Lease.LeaseId)
    requires Lease.Inv(s) && Faithful(n, s.issued.Keys)
    ensures var t := HandleDns(n, c, s, m, details);
            && (t.history == s.history + [Lease.Accepted(Lease.Key(l, Lease.Dns), s.now, details)] <==> Addresses(n, c, s, m, l) && Open(s, l))
            && (t.history == s.history || exists other :: Accepts(n, c, s, m, details, other, t))
  {
    hide LeaseOf, Lease.Run, Open, Addresses;
    var t := HandleDns(n, c, s, m, details);
    LeaseOfIff(n, c, s, m, l);
    match LeaseOf(n, c, s, m)
    case None =>
      RunNothing(s);
      assert |s.history + [Lease.Accepted(Lease.Key(l, Lease.Dns), s.now, details)]| == |s.history| + 1;
    case Some(found) =>
      LeaseOfIff(n, c, s, m, found);
      AddressedIsUsable(n, c, s, m, found);
      RecordedStep(n, s, found, details);
      var one, two := Lease.Accepted(Lease.Key(l, Lease.Dns), s.now, details), Lease.Accepted(Lease.Key(found, Lease.Dns), s.now, details);
      assert (s.history + [one])[|s.history|] == one && (s.history + [two])[|s.history|] == two;
      assert |s.history + [one]| == |s.history| + 1;
      assert Open(s, found) ==> Accepts(n, c, s, m, details, found, t);
  }

  lemma RunNothing(s: Lease.System)
    ensures Lease.Run(s, []) == s
  {
  }

  lemma AddressedIsUsable(n: Naming, c: Config, s: Lease.System, m: seq<byte>, l: Lease.LeaseId)
    requires Addresses(n, c, s, m, l)
    ensures Lease.Usable(s.leases, l, s.now) && Lease.Dns in s.leases[l].protocols
  {
  }

  // ---------------------------------------------------------------- whole histories

  /** What happens to the collaborator: a DNS query as bytes, or any other step of the store. */
  datatype Input =
    | Datagram(message: seq<byte>, details: Lease.Details)
    | Other(event: Lease.Event)

  ghost function EventsOf(n: Naming, c: Config, s: Lease.System, i: Input): seq<Lease.Event> {
    match i
    case Datagram(m, details) => StoreEvents(n, c, s, m, details)
    case Other(e) => [e]
  }

  ghost function RunInputs(n: Naming, c: Config, s: Lease.System, inputs: seq<Input>): Lease.System
    decreases |inputs|
  {
    if inputs == [] then s else RunInputs(n, c, Lease.Run(s, EventsOf(n, c, s, inputs[0])), inputs[1..])
  }

  lemma {:induction false} RunTwice(s: Lease.System, es: seq<Lease.Event>, fs: seq<Lease.Event>)
    ensures Lease.Run(s, es + fs) == Lease.Run(Lease.Run(s, es), fs)
    decreases |es|
  {
    hide Lease.Next;
    if es == [] {
      assert es + fs == fs;
    } else {
      assert (es + fs)[1..] == es[1..] + fs;
      RunTwice(Lease.Next(s, es[0]), es[1..], fs);
    }
  }

  /** Queries are runs of the store, so what holds in every run of the store holds here. */
  lemma {:induction false} InputsAreEvents(n: Naming, c: Config, s: Lease.System, inputs: seq<Input>) returns (es: seq<Lease.Event>)
    ensures RunInputs(n, c, s, inputs) == Lease.Run(s, es)
    decreases |inputs|
  {
    hide Lease.Next, EventsOf;
    if inputs == [] {
      es := [];
    } else {
      var first := EventsOf(n, c, s, inputs[0]);
      var more := InputsAreEvents(n, c, Lease.Run(s, first), inputs[1..]);
      RunTwice(s, first, more);
      es := first + more;
    }
  }

  /**
   The collaborator end to end. After any history of DNS queries, given as bytes, and other
   steps: a further query is accepted for a lease exactly when it asks for its callback name while
   the lease is usable for DNS and holds no DNS evidence yet (and fewer events than its limit); and
   over the whole history no lease has two accepted DNS callbacks, none before its creation, at or
   after its expiry, or after its revocation.
   */
  lemma QueriesAreAcceptedOnce(n: Naming, c: Config, s: Lease.System, inputs: seq<Input>, m: seq<byte>, details: Lease.Details, l: Lease.LeaseId)
    requires Lease.Initial(s) && Faithful(n, RunInputs(n, c, s, inputs).issued.Keys)
    ensures var t := RunInputs(n, c, s, inputs);
            var u := RunInputs(n, c, s, inputs + [Datagram(m, details)]);
            && (u.history == t.history + [Lease.Accepted(Lease.Key(l, Lease.Dns), t.now, details)] <==> Addresses(n, c, t, m, l) && Open(t, l))
            && (forall k | 0 <= k < |u.history| && u.history[k].Accepted? :: Lease.Admissible(u, u.history[k].key, u.history[k].at))
            && (forall j, k | 0 <= j < k < |u.history| && u.history[j].Accepted? && u.history[k].Accepted? :: u.history[j].key != u.history[k].key)
            && (forall j, k | 0 <= j < k < |u.history| && u.history[j].Withdrawn? && u.history[k].Accepted? :: u.history[j].lease != u.history[k].key.lease)
  {
    hide Lease.Run, Lease.Admissible, HandleDns, Addresses, Open, Faithful, Lease.Inv;
    var t := RunInputs(n, c, s, inputs);
    var es := InputsAreEvents(n, c, s, inputs);
    InitialKeeps(s);
    Lease.RunKeepsInv(s, es);
    RecordedIff(n, c, t, m, details, l);
    LastInput(n, c, s, inputs, Datagram(m, details));
    var all := InputsAreEvents(n, c, s, inputs + [Datagram(m, details)]);
    Lease.CallbacksAreAcceptedOnce(s, all);
    HandledIsRun(n, c, t, m, details);
  }

  lemma InitialKeeps(s: Lease.System)
    requires Lease.Initial(s)
    ensures Lease.Inv(s)
  {
  }

  lemma HandledIsRun(n: Naming, c: Config, s: Lease.System, m: seq<byte>, details: Lease.Details)
    ensures HandleDns(n, c, s, m, details) == Lease.Run(s, EventsOf(n, c, s, Datagram(m, details)))
  {
  }

  lemma {:induction false} LastInput(n: Naming, c: Config, s: Lease.System, inputs: seq<Input>, last: Input)
    ensures var t := RunInputs(n, c, s, inputs); RunInputs(n, c, s, inputs + [last]) == Lease.Run(t, EventsOf(n, c, t, last))
    decreases |inputs|
  {
    hide Lease.Run, EventsOf;
    if inputs == [] {
      assert inputs + [last] == [last] && [last][1..] == [];
    } else {
      assert (inputs + [last])[1..] == inputs[1..] + [last];
      LastInput(n, c, Lease.Run(s, EventsOf(n, c, s, inputs[0])), inputs[1..], last);
    }
  }

  // ---------------------------------------------------------------- what the client learns

  /**
   A client that asks for a lease's callback name, in any letter case and for any type, gets a
   reply it accepts: authoritative, with code 0 exactly while the lease is usable for DNS (or the
   name is a configured server), and 3 otherwise; and the query is evidence exactly as above.
   */
  lemma CallbackIsAnswered(n: Naming, c: Config, s: Lease.System, l: Lease.LeaseId, sent: seq<byte>, qtype: nat, id: nat, tcp: bool)
    requires Lease.Inv(s) && Faithful(n, s.issued.Keys) && Valid(c) && l in s.leases
    requires IsAscii(sent) && Lower(sent) == CallbackName(IdentityFor(n, s.leases, l), Zone(c)) && qtype < 65536 && id < 65536
    ensures var q := Question(sent, qtype, id);
            var usable := Lease.Usable(s.leases, l, s.now) && Lease.Dns in s.leases[l].protocols;
            && Parse(q).Some? && (Addresses(n, c, s, q, l) <==> usable)
            && ReplyTo(n, c, s, q, tcp).Some?
            && (var r := Inspect(ReplyTo(n, c, s, q, tcp).value, q);
                && r.Some? && r.value.authoritative && !r.value.recursionAvailable
                && r.value.rcode == if usable || Lower(sent) in Servers(c) then 0 else 3)
            && (usable && qtype == 1 ==> AddressIsGiven(n, c, s, q, Lower(sent), tcp))
  {
    hide Inspect, Parse, Question, Reply, SectionsFor, Legal, HexText, NameBytes, IdentityOf, Split, Faithful, Lease.Inv, Cut, Types, ServerNames, DelegationLength, AddressIsGiven;
    var q := Question(sent, qtype, id);
    var callback := IdentityFor(n, s.leases, l);
    IdentityIsHex(n, s, l);
    ZoneIsLower(c);
    ZoneIsReadable(c);
    CallbackRoundTrip(callback, Zone(c), sent, qtype, id);
    ParsesExactlyLegal(sent, qtype, id);
    ParseOfQuestion(sent, qtype, id);
    AsciiIsItself(sent);
    LeaseOfIff(n, c, s, q, l);
    var valid := LeaseOf(n, c, s, q).Some?;
    OnlyOwner(n, c, s, q, l);
    ServerAndClientAgree(q, valid, c, tcp);
    ReplyIsReadIff(q, valid, c, tcp);
    CallbackIsInside(callback, Zone(c));
    assert q[..|q|] == q;
    if Lease.Usable(s.leases, l, s.now) && Lease.Dns in s.leases[l].protocols && qtype == 1 {
      AddressReaches(n, c, s, q, tcp);
    }
  }

  /**
   The client gets the configured address under the name it asked for, and nothing else; over UDP
   only when the name has at most 239 bytes, and a truncated reply otherwise.
   */
  ghost predicate AddressIsGiven(n: Naming, c: Config, s: Lease.System, q: seq<byte>, name: seq<byte>, tcp: bool)
    requires Valid(c) && |q| >= HEADER
  {
    && ReplyTo(n, c, s, q, tcp).Some?
    && (var reply := ReplyTo(n, c, s, q, tcp).value;
        var r := Inspect(reply, q);
        && r.Some?
        && if tcp || |name| <= 239 then
             !r.value.truncated && r.value.answerTypes == [1] && Carries(reply, |q|, [Entry(1, name, c.ipv4)])
           else r.value.truncated && r.value.answerTypes == [] && |reply| == |q|)
  }

  lemma AddressReaches(n: Naming, c: Config, s: Lease.System, q: seq<byte>, tcp: bool)
    requires Valid(c) && Parse(q).Some? && Parse(q).value.questionEnd == |q| && Parse(q).value.qtype == 1
    requires LeaseOf(n, c, s, q).Some? && Below(Parse(q).value.name, Zone(c))
    ensures AddressIsGiven(n, c, s, q, Parse(q).value.name, tcp)
  {
    hide Inspect, Parse, Reply, SectionsFor, LeaseOf, Types, ServerNames, Rcode, Inside, Below, Cut, Carries, Headed, IsDelegation, IsSoaData;
    ServerAndClientAgree(q, true, c, tcp);
    AddressReplyIsCutIff(q, true, c, tcp);
    ReplyIsReadIff(q, true, c, tcp);
    var es := ReplySays(q, true, c, tcp);
    assert q[..|q|] == q;
  }

  lemma AsciiIsItself(s: seq<byte>)
    requires IsAscii(s)
    ensures Ascii(s) == s
  {
  }

  lemma IdentityIsHex(n: Naming, s: Lease.System, l: Lease.LeaseId)
    requires Lease.Inv(s) && Faithful(n, s.issued.Keys) && l in s.leases
    ensures HexText(n.id(l)) && HexText(n.signature(DnsSignature(s.leases, l)))
  {
    IssuedIsFaithful(n, s);
  }

  lemma ZoneIsReadable(c: Config)
    requires Valid(c)
    ensures AllReadable(Split(Zone(c))) && |Zone(c)| <= 187
  {
    ServersLegal(c);
  }

  /** No other lease answers to a lease's callback name. */
  lemma OnlyOwner(n: Naming, c: Config, s: Lease.System, m: seq<byte>, l: Lease.LeaseId)
    requires Lease.Inv(s) && Faithful(n, s.issued.Keys) && l in s.leases && Parse(m).Some?
    requires Parse(m).value.name == CallbackName(IdentityFor(n, s.leases, l), Zone(c))
    ensures LeaseOf(n, c, s, m).Some? ==> LeaseOf(n, c, s, m) == Some(l)
  {
    hide Parse, IdentityOf, CallbackName, HexText;
    IssuedIsFaithful(n, s);
    ZoneIsLower(c);
    IdentityOfCallback(IdentityFor(n, s.leases, l), Zone(c));
  }

  lemma CallbackIsInside(id: Identity, zone: seq<byte>)
    ensures Below(CallbackName(id, zone), zone) && CallbackName(id, zone) != zone
  {
    var name := CallbackName(id, zone);
    assert name[|name| - |zone| - 1..] == [DOT] + zone;
    assert |name| > |zone|;
  }

  // ---------------------------------------------------------------- over TCP

  /** The length prefix and the message. */
  function Framed(m: seq<byte>): seq<byte>
    requires |m| < 65536
  {
    Put16(|m|) + m
  }

  /** However a framed message is cut, and whatever follows it up to 4098 bytes, that message is handed over. */
  lemma FramedIsHandled(chunks: seq<seq<byte>>, m: seq<byte>, rest: seq<byte>)
    requires Tcp.LegalLength(|m|) && |m| + 2 + |rest| <= Tcp.BUFFER_LIMIT && Tcp.Flatten(chunks) == Framed(m) + rest
    ensures Tcp.ReceiveAll(Tcp.Fresh, chunks) == Tcp.Handled(m)
  {
    hide Tcp.ReceiveAll, Tcp.Flatten;
    var s := Tcp.Flatten(chunks);
    assert s[0] == Put16(|m|)[0] && s[1] == Put16(|m|)[1];
    assert U16(s, 0) == |m|;
    assert s[2..|m| + 2] == m;
    Tcp.CompleteMessageIsHandled(chunks);
  }

  lemma QuestionIsFrameable(name: seq<byte>, qtype: nat, id: nat)
    requires Legal(name) && qtype < 65536 && id < 65536
    ensures Tcp.LegalLength(|Question(name, qtype, id)|) && |Question(name, qtype, id)| + 2 <= Tcp.BUFFER_LIMIT
  {
    hide Question, Legal;
    QuestionLength(name, qtype, id);
    LegalIsShort(name);
  }

  lemma LegalIsShort(name: seq<byte>)
    requires Legal(name)
    ensures |name| <= MAX_WIRE - 2
  {
  }

  /**
   A callback over TCP, end to end: for every way the framed question of a lease's callback name
   is cut into chunks, the connection hands over that question; the query is evidence for the
   lease exactly while it is usable for DNS and open; and the reply fits its own length prefix
   and is read by the client as in the datagram case.
   */
  lemma CallbackOverTcp(n: Naming, c: Config, s: Lease.System, l: Lease.LeaseId, sent: seq<byte>, qtype: nat, id: nat,
                        chunks: seq<seq<byte>>, details: Lease.Details)
    requires Lease.Inv(s) && Faithful(n, s.issued.Keys) && Valid(c) && l in s.leases
    requires IsAscii(sent) && Lower(sent) == CallbackName(IdentityFor(n, s.leases, l), Zone(c)) && qtype < 65536 && id < 65536
    requires |Question(sent, qtype, id)| < 65536 && Tcp.Flatten(chunks) == Framed(Question(sent, qtype, id))
    ensures var q := Question(sent, qtype, id);
            var usable := Lease.Usable(s.leases, l, s.now) && Lease.Dns in s.leases[l].protocols;
            && Tcp.ReceiveAll(Tcp.Fresh, chunks) == Tcp.Handled(q)
            && (HandleDns(n, c, s, q, details).history == s.history + [Lease.Accepted(Lease.Key(l, Lease.Dns), s.now, details)] <==> usable && Open(s, l))
            && ReplyTo(n, c, s, q, true).Some? && |ReplyTo(n, c, s, q, true).value| <= MAX_MESSAGE
            && (var r := Inspect(ReplyTo(n, c, s, q, true).value, q);
                && r.Some? && r.value.authoritative && !r.value.truncated
                && r.value.rcode == if usable || Lower(sent) in Servers(c) then 0 else 3)
            && (usable && qtype == 1 ==>
                  && Inspect(ReplyTo(n, c, s, q, true).value, q).value.answerTypes == [1]
                  && Carries(ReplyTo(n, c, s, q, true).value, |q|, [Entry(1, Lower(sent), c.ipv4)]))
  {
    hide Carries, Inspect, Parse, Question, ReplyTo, Legal, HandleDns, Addresses, Open, Faithful, Lease.Inv, CallbackName, Tcp.ReceiveAll, Tcp.Flatten, IsAscii, Lower;
    var q := Question(sent, qtype, id);
    CallbackIsAnswered(n, c, s, l, sent, qtype, id, true);
    RecordedIff(n, c, s, q, details, l);
    ParsesExactlyLegal(sent, qtype, id);
    ParseOfQuestion(sent, qtype, id);
    QuestionIsFrameable(sent, qtype, id);
    assert Framed(q) + [] == Framed(q);
    FramedIsHandled(chunks, q, []);
    TcpReplyIsWhole(n, c, s, q);
  }

  /** A reply over TCP that the client accepts is whole and at most 4096 bytes. */
  lemma TcpReplyIsWhole(n: Naming, c: Config, s: Lease.System, q: seq<byte>)
    requires Valid(c) && Parse(q).Some? && Parse(q).value.questionEnd == |q| && ReplyTo(n, c, s, q, true).Some?
    requires |q| >= HEADER && Inspect(ReplyTo(n, c, s, q, true).value, q).Some?
    ensures |ReplyTo(n, c, s, q, true).value| <= MAX_MESSAGE && !Inspect(ReplyTo(n, c, s, q, true).value, q).value.truncated
  {
    hide Inspect, Parse, Reply, SectionsFor, LeaseOf, Types, ServerNames, Rcode, Inside;
    var valid := LeaseOf(n, c, s, q).Some?;
    ServerAndClientAgree(q, valid, c, true);
    assert q[..|q|] == q;
  }
}
