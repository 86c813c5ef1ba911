/**
 What a reply of `answerOastDns` says, read off its bytes: the header, and every record with its
 type, owner, time to live and data.
 */
module DnsContent {
  import opened Common
  import opened Bytes
  import opened DnsName
  import opened DnsQuery
  import opened DnsReader
  import opened DnsAnswer

  datatype Entry = Entry(rtype: nat, owner: seq<byte>, data: seq<byte>)

  /** The record at `at` is this one, with a time to live of 30 seconds. */
  predicate EntryAt(r: seq<byte>, at: nat, e: Entry) {
    match (NameRead(r, at), RecordAt(r, at))
    case (Some(owner), Some(record)) =>
      && owner.name == e.owner && record.rtype == e.rtype
      && owner.end + 10 == record.dataAt <= record.end <= |r|
      && r[owner.end + 4..owner.end + 8] == [0, 0, 0, 30] && r[record.dataAt..record.end] == e.data
    case _ => false
  }

  /** From `at` to its end the message is exactly these records. */
  predicate Carries(r: seq<byte>, at: nat, es: seq<Entry>)
    decreases |es|
  {
    if es == [] then at == |r| else EntryAt(r, at, es[0]) && Carries(r, RecordAt(r, at).value.end, es[1..])
  }

  // ---------------------------------------------------------------- records as they are written

  function EntryOf(rr: ResourceRecord): Entry {
    Entry(rr.rtype, rr.owner, DataBytes(rr.data))
  }

  function EntriesOf(rrs: seq<ResourceRecord>): (es: seq<Entry>)
    ensures |es| == |rrs|
  {
    seq(|rrs|, k requires 0 <= k < |rrs| => EntryOf(rrs[k]))
  }

  predicate Plain(name: seq<byte>) { Lower(Ascii(name)) == name }

  lemma LifetimeStands(m: seq<byte>, at: nat, rr: ResourceRecord)
    requires Writable(rr) && At(m, at, FixedBytes(rr))
    ensures at + 10 <= |m| && m[at + 4..at + 8] == [0, 0, 0, 30]
  {
    var a, b := Put16(rr.rtype) + [0, 1], Put32(TTL) + Put16(DataSize(rr.data));
    assert FixedBytes(rr) == a + b;
    AtSplit(m, at, a, b);
    AtSplit(m, at + 4, Put32(TTL), Put16(DataSize(rr.data)));
    assert Put32(TTL) == [0, 0, 0, 30];
  }

  lemma EntryStands(m: seq<byte>, at: nat, rr: ResourceRecord)
    requires Sound(rr) && Plain(rr.owner) && At(m, at, RecordBytes(rr))
    ensures EntryAt(m, at, EntryOf(rr)) && RecordAt(m, at).Some? && RecordAt(m, at).value.end == at + Size(rr)
  {
    hide RecordBytes, NameRead, RecordAt, Lower, Ascii, Legal, NameBytes, FixedBytes, Readable, Split, DataBytes;
    RecordParts(m, at, rr);
    RecordStands(m, at, rr);
    ReadsNameBytes(m, at, rr.owner);
    NameBytesLength(rr.owner);
    LifetimeStands(m, at + |rr.owner| + 2, rr);
    DataLength(rr.data);
  }

  ghost predicate AllPlain(rrs: seq<ResourceRecord>) {
    forall k | 0 <= k < |rrs| :: Plain(rrs[k].owner)
  }

  lemma {:induction false} RecordsAreCarried(m: seq<byte>, at: nat, rrs: seq<ResourceRecord>)
    requires AllSound(rrs) && AllWritable(rrs) && AllPlain(rrs) && At(m, at, RecordsBytes(rrs)) && at + |RecordsBytes(rrs)| == |m|
    ensures Carries(m, at, EntriesOf(rrs))
    decreases |rrs|
  {
    hide At, RecordBytes, NameRead, RecordAt, EntryAt, Sound, Writable, Plain, EntryOf, Size;
    if rrs != [] {
      AtSplit(m, at, RecordBytes(rrs[0]), RecordsBytes(rrs[1..]));
      assert Sound(rrs[0]) && Plain(rrs[0].owner);
      RecordLength(rrs[0]);
      EntryStands(m, at, rrs[0]);
      RecordsAreCarried(m, at + Size(rrs[0]), rrs[1..]);
      assert EntriesOf(rrs)[1..] == EntriesOf(rrs[1..]);
    }
  }

  // ---------------------------------------------------------------- what should be answered

  /** Text as bytes. */
  function Text(s: string): seq<byte>
    requires forall k | 0 <= k < |s| :: s[k] as int < 128
  {
    seq(|s|, k requires 0 <= k < |s| => s[k] as int)
  }

  /** Primary server, mailbox, serial number, and the four times of the zone (section 3.3.13 of RFC 1035). */
  predicate IsSoaData(d: seq<byte>, c: Config) {
    && Servers(c) != [] && (c.soaSerial.Some? ==> c.soaSerial.value < 0x1_0000_0000)
    && (var mailbox := Text("hostmaster.") + Zone(c);
        var a, b := |Servers(c)[0]| + 2, |mailbox| + 2;
        && |d| == a + b + 20
        && d[..a] == NameBytes(Servers(c)[0]) && d[a..a + b] == NameBytes(mailbox)
        && d[a + b..] == Put32(if c.soaSerial.Some? then c.soaSerial.value else 1) + [0, 0, 1, 44, 0, 0, 0, 60, 0, 1, 81, 128, 0, 0, 0, 30])
  }

  /** The servers of the zone, and after them the configured addresses under each server's name. */
  predicate IsDelegation(es: seq<Entry>, c: Config) {
    var servers := Servers(c);
    var n := |servers|;
    && (forall k | 0 <= k < n :: k < |es| && es[k] == Entry(2, Zone(c), NameBytes(servers[k])))
    && if c.publishIpv6 then
         |es| == 3 * n && forall k | 0 <= k < n :: es[n + 2 * k] == Entry(1, servers[k], c.ipv4) && es[n + 2 * k + 1] == Entry(28, servers[k], c.ipv6)
       else
         |es| == 2 * n && forall k | 0 <= k < n :: es[n + k] == Entry(1, servers[k], c.ipv4)
  }

  /** The name is the zone, a server, or a valid callback name below the zone. */
  predicate Known(p: Query, validIdentity: bool, c: Config) {
    p.name == Zone(c) || (Below(p.name, Zone(c)) && (p.name in Servers(c) || validIdentity))
  }

  /** The records due to a question, and how many of them are answers, authorities and additional ones. */
  ghost predicate Due(p: Query, validIdentity: bool, c: Config, es: seq<Entry>, an: nat, ns: nat, ar: nat) {
    if p.name != Zone(c) && !Below(p.name, Zone(c)) then
      es == [] && an == 0 && ns == 0 && ar == 0
    else if Known(p, validIdentity, c) && p.qtype == 1 then
      es == [Entry(1, p.name, c.ipv4)] && an == 1 && ns == 0 && ar == 0
    else if Known(p, validIdentity, c) && p.qtype == 28 && c.publishIpv6 then
      es == [Entry(28, p.name, c.ipv6)] && an == 1 && ns == 0 && ar == 0
    else if p.name == Zone(c) && p.qtype == 2 then
      IsDelegation(es, c) && an == |Servers(c)| && ns == 0 && ar == |es| - an
    else
      && |es| == 1 && es[0].rtype == 6 && es[0].owner == Zone(c) && IsSoaData(es[0].data, c)
      && an == (if p.name == Zone(c) && p.qtype == 6 then 1 else 0) && ns == 1 - an && ar == 0
  }

  /** The header of a reply, and the echoed question. */
  predicate Headed(r: seq<byte>, m: seq<byte>, p: Query, validIdentity: bool, c: Config, cut: bool)
    requires HEADER <= p.questionEnd <= |m|
  {
    var inside := p.name == Zone(c) || Below(p.name, Zone(c));
    && p.questionEnd <= |r| && r[..2] == m[..2] && r[HEADER..p.questionEnd] == m[HEADER..p.questionEnd] && U16(r, 4) == 1
    && r[2] as int == 128 + (if inside then 4 else 0) + (if cut then 2 else 0) + m[2] as int % 2
    && r[3] == if !inside then 5 else if Known(p, validIdentity, c) then 0 else 3
  }

  // ---------------------------------------------------------------- the sections are what is due

  lemma ConstantsAreText()
    ensures HOSTMASTER == Text("hostmaster.") && NS1 == Text("ns1.")
  {
    var h, n := "hostmaster.", "ns1.";
    assert h == ['h', 'o', 's', 't', 'm', 'a', 's', 't', 'e', 'r', '.'];
    assert n == ['n', 's', '1', '.'];
  }

  lemma ThreeParts(a: seq<byte>, b: seq<byte>, t: seq<byte>)
    ensures var d := a + b + t; d[..|a|] == a && d[|a|..|a| + |b|] == b && d[|a| + |b|..] == t
  {
  }

  function Numbers(serial: nat): seq<byte>
    requires serial < 0x1_0000_0000
  {
    Put32(serial) + [0, 0, 1, 44, 0, 0, 0, 60, 0, 1, 81, 128, 0, 0, 0, 30]
  }

  lemma NumbersAre(serial: nat)
    requires serial < 0x1_0000_0000
    ensures Put32(serial) + Put32(300) + Put32(60) + Put32(86400) + Put32(30) == Numbers(serial)
  {
    TimesAreBytes();
  }

  lemma Regrouped(a: seq<byte>, b: seq<byte>, s: seq<byte>, t: seq<byte>, u: seq<byte>, v: seq<byte>, w: seq<byte>)
    ensures a + b + s + t + u + v + w == a + b + (s + t + u + v + w)
  {
  }

  lemma SoaIsSoa(c: Config)
    requires Valid(c) && Servers(c) != []
    ensures var e := EntryOf(Soa(c)); e.rtype == 6 && e.owner == Zone(c) && IsSoaData(e.data, c)
  {
    hide NameBytes, Legal, Servers, Zone, Put32, IsAscii, Below;
    ConstantsAreText();
    var primary, mailbox := Servers(c)[0], HOSTMASTER + Zone(c);
    NameBytesLength(primary);
    NameBytesLength(mailbox);
    var serial := if c.soaSerial.Some? then c.soaSerial.value else 1;
    Regrouped(NameBytes(primary), NameBytes(mailbox), Put32(serial), Put32(300), Put32(60), Put32(86400), Put32(30));
    NumbersAre(serial);
    ThreeParts(NameBytes(primary), NameBytes(mailbox), Numbers(serial));
  }

  lemma TimesAreBytes()
    ensures Put32(300) == [0, 0, 1, 44] && Put32(60) == [0, 0, 0, 60] && Put32(86400) == [0, 1, 81, 128] && Put32(30) == [0, 0, 0, 30]
  {
  }

  lemma {:induction false} GlueAt(c: Config, servers: seq<seq<byte>>, k: nat)
    requires k < |servers|
    ensures |Glue(c, servers)| == (if c.publishIpv6 then 2 else 1) * |servers|
    ensures !c.publishIpv6 ==> Glue(c, servers)[k] == ResourceRecord(servers[k], 1, Raw(c.ipv4))
    ensures c.publishIpv6 ==>
              Glue(c, servers)[2 * k] == ResourceRecord(servers[k], 1, Raw(c.ipv4)) && Glue(c, servers)[2 * k + 1] == ResourceRecord(servers[k], 28, Raw(c.ipv6))
    decreases |servers|
  {
    if |servers| > 1 {
      GlueAt(c, servers[1..], if k == 0 then 0 else k - 1);
    }
  }

  lemma DelegationIsDue(c: Config)
    requires Servers(c) != []
    ensures IsDelegation(EntriesOf(NsRecords(c, Servers(c)) + [] + Glue(c, Servers(c))), c)
  {
    hide Servers, NameBytes, Zone;
    var servers := Servers(c);
    var rrs := NsRecords(c, servers) + [] + Glue(c, servers);
    var es := EntriesOf(rrs);
    forall k | 0 <= k < |servers| ensures es[k] == Entry(2, Zone(c), NameBytes(servers[k])) {
      assert rrs[k] == NsRecords(c, servers)[k];
    }
    GlueAt(c, servers, 0);
    forall k | 0 <= k < |servers|
      ensures c.publishIpv6 ==> es[|servers| + 2 * k] == Entry(1, servers[k], c.ipv4) && es[|servers| + 2 * k + 1] == Entry(28, servers[k], c.ipv6)
      ensures !c.publishIpv6 ==> es[|servers| + k] == Entry(1, servers[k], c.ipv4)
    {
      GlueAt(c, servers, k);
    }
  }

  lemma SectionsAreDue(p: Query, validIdentity: bool, c: Config)
    requires Valid(c) && Servers(c) != []
    ensures var s := SectionsFor(p, validIdentity, c);
            Due(p, validIdentity, c, EntriesOf(All(s)), |s.answers|, |s.authorities|, |s.additional|)
  {
    hide IsDelegation, IsSoaData, Servers, Below, Soa, NsRecords, Glue, Zone, Legal, NameBytes;
    SoaIsSoa(c);
    DelegationIsDue(c);
    var s := SectionsFor(p, validIdentity, c);
    if p.name == Zone(c) && p.qtype == 2 {
      assert All(s) == NsRecords(c, Servers(c)) + [] + Glue(c, Servers(c));
    }
  }

  lemma {:induction false} GluePlain(c: Config, servers: seq<seq<byte>>)
    requires forall k | 0 <= k < |servers| :: Plain(servers[k])
    ensures AllPlain(Glue(c, servers))
    decreases |servers|
  {
    hide Plain;
    if servers != [] {
      GluePlain(c, servers[1..]);
    }
  }

  lemma OwnersArePlain(p: Query, validIdentity: bool, c: Config)
    requires Valid(c) && Servers(c) != [] && Plain(p.name)
    ensures AllPlain(All(SectionsFor(p, validIdentity, c)))
  {
    ServersPlain(c);
    hide Servers, Zone, Lower, Ascii, Below, Legal;
    GluePlain(c, Servers(c));
  }

  // ---------------------------------------------------------------- main results

  lemma AssembledCarries(q: seq<byte>, flags: seq<byte>, s: Sections)
    requires |q| >= HEADER && |flags| == 2 && Fits(s) && AllSound(All(s)) && AllPlain(All(s))
    ensures Carries(Assembled(q, flags, s), |q|, EntriesOf(All(s)))
  {
    hide Assembled, RecordsBytes, Sound, Writable, Plain, At, EntriesOf;
    AssembledLayout(q, flags, s);
    RecordsAreCarried(Assembled(q, flags, s), |q|, All(s));
  }

  lemma FlagBits(m: seq<byte>, validIdentity: bool, c: Config, truncated: bool)
    requires Parse(m).Some?
    ensures var p := Parse(m).value;
            var f := Flags(p, validIdentity, c, truncated);
            var inside := p.name == Zone(c) || Below(p.name, Zone(c));
            && f[0] as int == 128 + (if inside then 4 else 0) + (if truncated then 2 else 0) + m[2] as int % 2
            && f[1] == if !inside then 5 else if Known(p, validIdentity, c) then 0 else 3
  {
    hide ReadLabels, Below, Zone, Servers;
  }

  lemma FullCarries(m: seq<byte>, validIdentity: bool, c: Config)
    requires Parse(m).Some? && Valid(c)
    ensures var p := Parse(m).value;
            && Servers(c) != [] && Fits(SectionsFor(p, validIdentity, c))
            && (var r, es := Full(m, p, validIdentity, c), EntriesOf(All(SectionsFor(p, validIdentity, c)));
                && Headed(r, m, p, validIdentity, c, false) && Carries(r, p.questionEnd, es)
                && Due(p, validIdentity, c, es, U16(r, 6), U16(r, 8), U16(r, 10)))
  {
    hide Parse, SectionsFor, Full, Assembled, Flags, Carries, Due, Plain, EntriesOf, Legal, NameBytes, Below, Servers, Zone, Known, Fits, All;
    ParsedFits(m, validIdentity, c);
    ParsedIsPlain(m);
    var p := Parse(m).value;
    var s, q, flags := SectionsFor(p, validIdentity, c), m[..p.questionEnd], Flags(p, validIdentity, c, false);
    PlainIs(p.name);
    OwnersArePlain(p, validIdentity, c);
    FullIsAssembled(m, p, validIdentity, c);
    AssembledLayout(q, flags, s);
    AssembledCarries(q, flags, s);
    SectionsAreDue(p, validIdentity, c);
    FlagBits(m, validIdentity, c, false);
    assert q[HEADER..] == m[HEADER..p.questionEnd];
  }

  lemma PlainIs(name: seq<byte>)
    requires Lower(Ascii(name)) == name
    ensures Plain(name)
  {
  }

  lemma CutIsBare(m: seq<byte>, validIdentity: bool, c: Config)
    requires Parse(m).Some?
    ensures var p := Parse(m).value;
            var r := Truncated(m, p, validIdentity, c);
            Headed(r, m, p, validIdentity, c, true) && |r| == p.questionEnd && U16(r, 6) == 0 && U16(r, 8) == 0 && U16(r, 10) == 0
  {
    hide Parse, Flags, Below, Servers, Zone, Known;
    var p := Parse(m).value;
    var r := Truncated(m, p, validIdentity, c);
    var h := ReplyHeader(m[..2], Flags(p, validIdentity, c, true), 0, 0, 0);
    assert r == h + m[HEADER..p.questionEnd];
    assert At(r, 0, h);
    HeaderReads(r, m[..2], Flags(p, validIdentity, c, true), 0, 0, 0);
    FlagBits(m, validIdentity, c, true);
  }

  /**
   For every accepted message and valid configuration, read off the reply's bytes: the header has
   the query's id, its wish for recursion, and the due code, and the question is echoed. Unless
   the reply is cut, exactly the due records follow, each with its owner, 30 seconds and its data:
   the configured address for an address question, the zone's servers with their addresses, or one
   SOA. A cut reply has none.
   */
  lemma ReplySays(m: seq<byte>, validIdentity: bool, c: Config, tcp: bool) returns (es: seq<Entry>)
    requires Parse(m).Some? && Valid(c)
    ensures var p := Parse(m).value;
            && Servers(c) != [] && Fits(SectionsFor(p, validIdentity, c))
            && (var r, cut := Reply(m, p, validIdentity, c, tcp), Cut(m, p, validIdentity, c, tcp);
                && Headed(r, m, p, validIdentity, c, cut)
                && (cut ==> |r| == p.questionEnd && U16(r, 6) == 0 && U16(r, 8) == 0 && U16(r, 10) == 0)
                && (!cut ==> Carries(r, p.questionEnd, es) && Due(p, validIdentity, c, es, U16(r, 6), U16(r, 8), U16(r, 10))))
  {
    hide Parse, SectionsFor, Full, Truncated, Carries, Due, Headed, EntriesOf;
    var p := Parse(m).value;
    ParsedFits(m, validIdentity, c);
    FullCarries(m, validIdentity, c);
    CutIsBare(m, validIdentity, c);
    es := EntriesOf(All(SectionsFor(p, validIdentity, c)));
  }

  /**
   How long the reply to an address question for a known name is, and hence when it is cut: over
   UDP exactly when the name is longer than 239 bytes.
   */
  lemma AddressReplyIsCutIff(m: seq<byte>, validIdentity: bool, c: Config, tcp: bool)
    requires Parse(m).Some? && Valid(c) && Parse(m).value.qtype == 1 && Known(Parse(m).value, validIdentity, c)
    ensures var p := Parse(m).value;
            && Servers(c) != [] && Fits(SectionsFor(p, validIdentity, c))
            && (Cut(m, p, validIdentity, c, tcp) <==> !tcp && |p.name| > 239)
            && Types(SectionsFor(p, validIdentity, c).answers) == [1]
  {
    hide Parse, Full, Servers, Below, Legal, NameBytes, Soa, NsRecords, Glue, Zone;
    var p := Parse(m).value;
    ParsedFits(m, validIdentity, c);
    FullLength(m, p, validIdentity, c);
    var a := ResourceRecord(p.name, 1, Raw(c.ipv4));
    var s := SectionsFor(p, validIdentity, c);
    assert s.answers == [a] && All(s) == [a];
    OneSize(a);
  }
}
