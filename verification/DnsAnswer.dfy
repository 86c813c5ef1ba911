/**
 The authoritative answer `answerOastDns`, and its composition with the client: what the server
 sends for a printed question is what the inspector reads.
 */
module DnsAnswer {
  import opened Common
  import opened Bytes
  import opened DnsName
  import opened DnsQuery
  import opened DnsReader

  const UDP_LIMIT: nat := 512
  const TTL: nat := 30

  /** The part of the service configuration that answers depend on; addresses are already bytes. */
  datatype Config = Config(
    baseDomain: seq<byte>, nameServers: Option<seq<seq<byte>>>, soaSerial: Option<nat>,
    ipv4: seq<byte>, ipv6: seq<byte>, publishIpv6: bool)

  function Zone(c: Config): seq<byte> {
    Lower(c.baseDomain)
  }

  const NS1: seq<byte> := [110, 115, 49, DOT]
  const HOSTMASTER: seq<byte> := [104, 111, 115, 116, 109, 97, 115, 116, 101, 114, DOT]

  function Servers(c: Config): seq<seq<byte>> {
    match c.nameServers
    case None => [NS1 + Zone(c)]
    case Some(names) => LowerAll(names)
  }

  predicate Below(name: seq<byte>, zone: seq<byte>) {
    |name| > |zone| && name[|name| - |zone| - 1..] == [DOT] + zone
  }

  /** What the configuration schema guarantees. */
  ghost predicate Valid(c: Config) {
    && Legal(c.baseDomain) && IsAscii(c.baseDomain) && |c.baseDomain| <= 187
    && (c.nameServers.Some? ==> 1 <= |c.nameServers.value| <= 4)
    && (c.nameServers.Some? ==> forall k | 0 <= k < |c.nameServers.value| ::
          && Legal(c.nameServers.value[k]) && IsAscii(c.nameServers.value[k])
          && Below(Lower(c.nameServers.value[k]), Zone(c)))
    && (c.soaSerial.Some? ==> 1 <= c.soaSerial.value < 0x1_0000_0000)
    && |c.ipv4| == 4 && |c.ipv6| == 16
  }

  // ---------------------------------------------------------------- records

  /** Record data: plain bytes, or the wire form of one host name. */
  datatype Data = Raw(bytes: seq<byte>) | Host(name: seq<byte>)

  datatype ResourceRecord = ResourceRecord(owner: seq<byte>, rtype: nat, data: Data)

  function DataBytes(d: Data): seq<byte> {
    match d
    case Raw(bytes) => bytes
    case Host(name) => NameBytes(name)
  }

  function DataSize(d: Data): nat {
    match d
    case Raw(bytes) => |bytes|
    case Host(name) => |name| + 2
  }

  predicate Writable(r: ResourceRecord) {
    r.rtype < 65536 && DataSize(r.data) < 65536
  }

  function FixedBytes(r: ResourceRecord): seq<byte>
    requires Writable(r)
  {
    Put16(r.rtype) + [0, 1] + Put32(TTL) + Put16(DataSize(r.data))
  }

  /** `record` */
  function RecordBytes(r: ResourceRecord): seq<byte>
    requires Writable(r)
  {
    NameBytes(r.owner) + (FixedBytes(r) + DataBytes(r.data))
  }

  predicate AllWritable(rs: seq<ResourceRecord>) {
    forall k | 0 <= k < |rs| :: Writable(rs[k])
  }

  function RecordsBytes(rs: seq<ResourceRecord>): seq<byte>
    requires AllWritable(rs)
    decreases |rs|
  {
    if rs == [] then [] else RecordBytes(rs[0]) + RecordsBytes(rs[1..])
  }

  // ---------------------------------------------------------------- sections

  datatype Sections = Sections(answers: seq<ResourceRecord>, authorities: seq<ResourceRecord>, additional: seq<ResourceRecord>)

  function Soa(c: Config): ResourceRecord
    requires c.soaSerial.Some? ==> c.soaSerial.value < 0x1_0000_0000
    requires Servers(c) != []
  {
    var serial := if c.soaSerial.Some? then c.soaSerial.value else 1;
    ResourceRecord(Zone(c), 6,
      Raw(NameBytes(Servers(c)[0]) + NameBytes(HOSTMASTER + Zone(c)) + Put32(serial) + Put32(300) + Put32(60) + Put32(86400) + Put32(30)))
  }

  function NsRecords(c: Config, servers: seq<seq<byte>>): (rs: seq<ResourceRecord>)
    ensures |rs| == |servers|
  {
    seq(|servers|, k requires 0 <= k < |servers| => ResourceRecord(Zone(c), 2, Host(servers[k])))
  }

  function Glue(c: Config, servers: seq<seq<byte>>): seq<ResourceRecord>
    decreases |servers|
  {
    if servers == [] then []
    else
      [ResourceRecord(servers[0], 1, Raw(c.ipv4))] + (if c.publishIpv6 then [ResourceRecord(servers[0], 28, Raw(c.ipv6))] else [])
      + Glue(c, servers[1..])
  }

  predicate Inside(name: seq<byte>, c: Config) {
    name == Zone(c) || Below(name, Zone(c))
  }

  predicate Exists(name: seq<byte>, validIdentity: bool, c: Config) {
    Inside(name, c) && (name == Zone(c) || name in Servers(c) || validIdentity)
  }

  function AnswersFor(p: Query, c: Config): seq<ResourceRecord>
    requires c.soaSerial.Some? ==> c.soaSerial.value < 0x1_0000_0000
    requires Servers(c) != []
  {
    if p.qtype == 1 then [ResourceRecord(p.name, 1, Raw(c.ipv4))]
    else if p.qtype == 28 && c.publishIpv6 then [ResourceRecord(p.name, 28, Raw(c.ipv6))]
    else if p.qtype == 6 && p.name == Zone(c) then [Soa(c)]
    else if p.qtype == 2 && p.name == Zone(c) then NsRecords(c, Servers(c))
    else []
  }

  function SectionsFor(p: Query, validIdentity: bool, c: Config): Sections
    requires c.soaSerial.Some? ==> c.soaSerial.value < 0x1_0000_0000
    requires Servers(c) != []
  {
    if !Inside(p.name, c) then Sections([], [], [])
    else if !Exists(p.name, validIdentity, c) then Sections([], [Soa(c)], [])
    else
      var answers := AnswersFor(p, c);
      Sections(answers, if answers == [] then [Soa(c)] else [], if p.qtype == 2 && p.name == Zone(c) then Glue(c, Servers(c)) else [])
  }

  function Rcode(p: Query, validIdentity: bool, c: Config): nat {
    if !Inside(p.name, c) then 5 else if Exists(p.name, validIdentity, c) then 0 else 3
  }

  function All(s: Sections): seq<ResourceRecord> {
    s.answers + s.authorities + s.additional
  }

  // ---------------------------------------------------------------- the message

  /** The two flag bytes: a response, AA inside the zone, TC on truncation, RD echoed, RA clear, the code. */
  function Flags(p: Query, validIdentity: bool, c: Config, truncated: bool): (f: seq<byte>)
    ensures |f| == 2
  {
    [128 + (if Inside(p.name, c) then 4 else 0) + (if truncated then 2 else 0) + (if p.recursionDesired then 1 else 0),
     Rcode(p, validIdentity, c)]
  }

  function ReplyHeader(id: seq<byte>, flags: seq<byte>, answers: nat, authorities: nat, additional: nat): (h: seq<byte>)
    requires |id| == 2 && |flags| == 2 && answers < 65536 && authorities < 65536 && additional < 65536
    ensures |h| == HEADER
  {
    id + flags + Put16(1) + Put16(answers) + Put16(authorities) + Put16(additional)
  }

  function Full(m: seq<byte>, p: Query, validIdentity: bool, c: Config): seq<byte>
    requires HEADER <= p.questionEnd <= |m|
    requires Servers(c) != [] && (c.soaSerial.Some? ==> c.soaSerial.value < 0x1_0000_0000)
    requires Fits(SectionsFor(p, validIdentity, c))
  {
    var s := SectionsFor(p, validIdentity, c);
    ReplyHeader(m[..2], Flags(p, validIdentity, c, false), |s.answers|, |s.authorities|, |s.additional|)
    + (m[HEADER..p.questionEnd] + RecordsBytes(All(s)))
  }

  predicate Fits(s: Sections) {
    AllWritable(All(s)) && |s.answers| + |s.authorities| + |s.additional| <= MAX_RECORDS
  }

  function Truncated(m: seq<byte>, p: Query, validIdentity: bool, c: Config): seq<byte>
    requires HEADER <= p.questionEnd <= |m|
  {
    ReplyHeader(m[..2], Flags(p, validIdentity, c, true), 0, 0, 0) + m[HEADER..p.questionEnd]
  }

  /** `answerOastDns` */
  function Reply(m: seq<byte>, p: Query, validIdentity: bool, c: Config, tcp: bool): seq<byte>
    requires HEADER <= p.questionEnd <= |m|
    requires Servers(c) != [] && (c.soaSerial.Some? ==> c.soaSerial.value < 0x1_0000_0000)
    requires Fits(SectionsFor(p, validIdentity, c))
  {
    var full := Full(m, p, validIdentity, c);
    if !tcp && |full| > UDP_LIMIT then Truncated(m, p, validIdentity, c) else full
  }

  // ---------------------------------------------------------------- building the message

  lemma {:induction false} GlueGrows(c: Config, servers: seq<seq<byte>>, one: seq<byte>)
    ensures Glue(c, servers + [one]) == Glue(c, servers) + Glue(c, [one])
    decreases |servers|
  {
    if servers == [] {
      assert servers + [one] == [one];
    } else {
      GlueGrows(c, servers[1..], one);
      assert (servers + [one])[1..] == servers[1..] + [one];
    }
  }

  /** The loop that pushes NS answers and their glue. */
  method PushDelegation(c: Config) returns (answers: seq<ResourceRecord>, additional: seq<ResourceRecord>)
    ensures answers == NsRecords(c, Servers(c)) && additional == Glue(c, Servers(c))
  {
    var servers := Servers(c);
    answers, additional := [], [];
    for k := 0 to |servers|
      invariant answers == NsRecords(c, servers[..k])
      invariant additional == Glue(c, servers[..k])
    {
      GlueGrows(c, servers[..k], servers[k]);
      assert servers[..k + 1] == servers[..k] + [servers[k]];
      answers := answers + [ResourceRecord(Zone(c), 2, Host(servers[k]))];
      additional := additional + [ResourceRecord(servers[k], 1, Raw(c.ipv4))];
      if c.publishIpv6 {
        additional := additional + [ResourceRecord(servers[k], 28, Raw(c.ipv6))];
      }
    }
    assert servers[..|servers|] == servers;
  }

  /** The records pushed for a query, section by section. */
  method PushRecords(p: Query, validIdentity: bool, c: Config) returns (s: Sections)
    requires Servers(c) != [] && (c.soaSerial.Some? ==> c.soaSerial.value < 0x1_0000_0000)
    ensures s == SectionsFor(p, validIdentity, c)
  {
    var answers: seq<ResourceRecord>, authorities: seq<ResourceRecord>, additional: seq<ResourceRecord> := [], [], [];
    if Exists(p.name, validIdentity, c) {
      if p.qtype == 1 {
        answers := answers + [ResourceRecord(p.name, 1, Raw(c.ipv4))];
      }
      if p.qtype == 28 && c.publishIpv6 {
        answers := answers + [ResourceRecord(p.name, 28, Raw(c.ipv6))];
      }
      if p.name == Zone(c) && p.qtype == 6 {
        answers := answers + [Soa(c)];
      }
      if p.name == Zone(c) && p.qtype == 2 {
        answers, additional := PushDelegation(c);
      }
      if |answers| == 0 {
        authorities := [Soa(c)];
      }
    } else if Inside(p.name, c) {
      authorities := [Soa(c)];
    }
    s := Sections(answers, authorities, additional);
  }

  // ---------------------------------------------------------------- the sections are well formed

  /** A record the inspector can read; an NS record holds one legal server name. */
  ghost predicate Sound(r: ResourceRecord) {
    Writable(r) && Legal(r.owner) && (r.rtype == 2 ==> r.data.Host? && Legal(r.data.name))
  }

  ghost predicate AllSound(rs: seq<ResourceRecord>) {
    forall k | 0 <= k < |rs| :: Sound(rs[k])
  }

  lemma LegalLower(name: seq<byte>)
    requires Legal(name)
    ensures Legal(Lower(name))
  {
    SplitOfLower(name);
    forall k | 0 <= k < |Split(name)| ensures Readable(Lower(Split(name)[k])) {
      ReadableLower(Split(name)[k]);
    }
  }

  lemma ReadableLower(l: seq<byte>)
    requires Readable(l)
    ensures Readable(Lower(l))
  {
    forall k | 0 <= k < |l| ensures LabelChar(Ascii(Lower(l))[k]) {
      assert LabelChar(Ascii(l)[k]);
    }
  }

  lemma NameBytesLength(name: seq<byte>)
    ensures |NameBytes(name)| == |name| + 2
  {
    JoinOfSplit(name);
    WireLength(Split(name));
  }

  lemma Ns1Legal(zone: seq<byte>)
    requires Legal(zone) && |zone| <= 187
    ensures Legal(NS1 + zone)
  {
    var first: seq<byte> := [110, 115, 49];
    SplitOfLabel(first, zone);
    assert NS1 + zone == first + [DOT] + zone;
    assert Readable(first);
  }

  lemma ServersLegal(c: Config)
    requires Valid(c)
    ensures 1 <= |Servers(c)| <= 4 && Legal(Zone(c)) && |Zone(c)| <= 187
    ensures forall k | 0 <= k < |Servers(c)| :: Legal(Servers(c)[k])
  {
    LegalLower(c.baseDomain);
    match c.nameServers
    case None => Ns1Legal(Zone(c));
    case Some(names) =>
      forall k | 0 <= k < |names| ensures Legal(Servers(c)[k]) {
        LegalLower(names[k]);
      }
  }

  lemma SoaSound(c: Config)
    requires Valid(c)
    ensures Servers(c) != [] && Sound(Soa(c))
  {
    ServersLegal(c);
    NameBytesLength(Servers(c)[0]);
    NameBytesLength(HOSTMASTER + Zone(c));
  }

  lemma NsSound(c: Config)
    requires Valid(c)
    ensures AllSound(NsRecords(c, Servers(c)))
  {
    ServersLegal(c);
    assert forall k | 0 <= k < |Servers(c)| :: Sound(NsRecords(c, Servers(c))[k]);
  }

  lemma {:induction false} GlueSound(c: Config, servers: seq<seq<byte>>)
    requires Valid(c) && forall k | 0 <= k < |servers| :: Legal(servers[k])
    ensures AllSound(Glue(c, servers)) && |Glue(c, servers)| <= 2 * |servers|
    decreases |servers|
  {
    if servers != [] {
      GlueSound(c, servers[1..]);
    }
  }

  lemma AnswersSound(p: Query, c: Config)
    requires Valid(c) && Legal(p.name)
    ensures Servers(c) != [] && AllSound(AnswersFor(p, c)) && |AnswersFor(p, c)| <= 4
  {
    SoaSound(c);
    NsSound(c);
    ServersLegal(c);
  }

  lemma SectionsSound(p: Query, validIdentity: bool, c: Config)
    requires Valid(c) && Legal(p.name)
    ensures Servers(c) != []
    ensures var s := SectionsFor(p, validIdentity, c);
            AllSound(All(s)) && |s.answers| + |s.authorities| + |s.additional| <= 13
  {
    SoaSound(c);
    ServersLegal(c);
    AnswersSound(p, c);
    GlueSound(c, Servers(c));
  }

  lemma SectionsFit(p: Query, validIdentity: bool, c: Config)
    requires Valid(c) && Legal(p.name)
    ensures Servers(c) != [] && Fits(SectionsFor(p, validIdentity, c))
  {
    SectionsSound(p, validIdentity, c);
    var rs := All(SectionsFor(p, validIdentity, c));
    forall k | 0 <= k < |rs| ensures Writable(rs[k]) {
      assert Sound(rs[k]);
    }
  }

  // ---------------------------------------------------------------- properties of the reply itself

  /** Every UDP reply, to any accepted message, is at most 512 bytes. */
  lemma UdpReplyFits(m: seq<byte>, validIdentity: bool, c: Config)
    requires Parse(m).Some? && Valid(c)
    ensures var p := Parse(m).value;
            Servers(c) != [] && Fits(SectionsFor(p, validIdentity, c)) && |Reply(m, p, validIdentity, c, false)| <= UDP_LIMIT
  {
    ReprintGivesQuestion(m);
    SectionsFit(Parse(m).value, validIdentity, c);
  }

  // ---------------------------------------------------------------- the client reads the records

  lemma FixedStands(m: seq<byte>, at: nat, r: ResourceRecord)
    requires Writable(r) && At(m, at, FixedBytes(r))
    ensures at + 10 <= |m| && U16(m, at) == r.rtype && U16(m, at + 2) == 1 && U16(m, at + 8) == DataSize(r.data)
  {
    var a, b := Put16(r.rtype) + [0, 1], Put32(TTL) + Put16(DataSize(r.data));
    assert FixedBytes(r) == a + b;
    AtSplit(m, at, a, b);
    AtSplit(m, at, Put16(r.rtype), [0, 1]);
    AtSplit(m, at + 4, Put32(TTL), Put16(DataSize(r.data)));
    U16At(m, at, r.rtype);
    assert Put16(1) == [0, 1];
    U16At(m, at + 2, 1);
    U16At(m, at + 8, DataSize(r.data));
  }

  lemma DataLength(d: Data)
    ensures |DataBytes(d)| == DataSize(d)
  {
    if d.Host? {
      NameBytesLength(d.name);
    }
  }

  /** Where the three parts of a written record stand. */
  lemma RecordParts(m: seq<byte>, at: nat, r: ResourceRecord)
    requires Writable(r) && At(m, at, RecordBytes(r))
    ensures At(m, at, NameBytes(r.owner)) && At(m, at + |r.owner| + 2, FixedBytes(r)) && At(m, at + |r.owner| + 12, DataBytes(r.data))
    ensures |RecordBytes(r)| == Size(r)
  {
    NameBytesLength(r.owner);
    DataLength(r.data);
    AtSplit(m, at, NameBytes(r.owner), FixedBytes(r) + DataBytes(r.data));
    AtSplit(m, at + |r.owner| + 2, FixedBytes(r), DataBytes(r.data));
  }

  lemma RecordStands(m: seq<byte>, at: nat, r: ResourceRecord)
    requires Writable(r) && Legal(r.owner) && At(m, at, RecordBytes(r))
    ensures RecordAt(m, at) == Some(ReadAs(r, at))
  {
    hide RecordBytes, NameRead, Lower, Ascii, Legal, NameBytes, FixedBytes, DataBytes;
    RecordParts(m, at, r);
    DataLength(r.data);
    ReadsNameBytes(m, at, r.owner);
    NameBytesLength(r.owner);
    FixedStands(m, at + |r.owner| + 2, r);
  }

  /** What the inspector collects from one answer. */
  function ServersOf(r: ResourceRecord): seq<seq<byte>> {
    if r.rtype == 2 && r.data.Host? then [Lower(Ascii(r.data.name))] else []
  }

  /** The server names in a list of answers. */
  function ServerNames(rs: seq<ResourceRecord>): seq<seq<byte>>
    decreases |rs|
  {
    if rs == [] then [] else ServersOf(rs[0]) + ServerNames(rs[1..])
  }

  function Types(rs: seq<ResourceRecord>): seq<nat> {
    seq(|rs|, k requires 0 <= k < |rs| => rs[k].rtype)
  }

  function Size(r: ResourceRecord): nat {
    |r.owner| + 12 + DataSize(r.data)
  }

  function Sizes(rs: seq<ResourceRecord>): nat
    decreases |rs|
  {
    if rs == [] then 0 else Size(rs[0]) + Sizes(rs[1..])
  }

  /** The record is read at `at` as it was written, up to `at + Size(r)`. */
  ghost predicate Here(m: seq<byte>, at: nat, r: ResourceRecord) {
    && Sound(r) && RecordAt(m, at) == Some(ReadAs(r, at))
    && (r.rtype == 2 ==> ServerIn(m, ReadAs(r, at)) == Some(Lower(Ascii(r.data.name))))
  }

  ghost predicate Laid(m: seq<byte>, at: nat, rs: seq<ResourceRecord>)
    decreases |rs|
  {
    rs == [] || (Here(m, at, rs[0]) && Laid(m, at + Size(rs[0]), rs[1..]))
  }

  function ReadAs(r: ResourceRecord, at: nat): Record {
    Record(r.rtype, at + |r.owner| + 12, at + Size(r))
  }

  lemma HostReads(m: seq<byte>, at: nat, name: seq<byte>)
    requires Legal(name) && At(m, at, NameBytes(name))
    ensures NameRead(m, at) == Some(NameAt(Lower(Ascii(name)), at + |name| + 2))
  {
    ReadsNameBytes(m, at, name);
    NameBytesLength(name);
  }

  lemma ServerStands(m: seq<byte>, at: nat, r: ResourceRecord)
    requires Sound(r) && r.rtype == 2 && At(m, at, RecordBytes(r))
    ensures ServerIn(m, ReadAs(r, at)) == Some(Lower(Ascii(r.data.name)))
  {
    hide At, RecordBytes, NameRead, Lower, Ascii, Legal, NameBytes, FixedBytes, Writable, Readable, Split;
    RecordParts(m, at, r);
    HostReads(m, at + |r.owner| + 12, r.data.name);
  }

  lemma RecordIsHere(m: seq<byte>, at: nat, r: ResourceRecord)
    requires Sound(r) && At(m, at, RecordBytes(r))
    ensures Here(m, at, r)
  {
    RecordStands(m, at, r);
    if r.rtype == 2 {
      ServerStands(m, at, r);
    }
  }

  lemma {:induction false} RecordsAreLaid(m: seq<byte>, at: nat, rs: seq<ResourceRecord>)
    requires AllSound(rs) && AllWritable(rs) && At(m, at, RecordsBytes(rs))
    ensures Laid(m, at, rs) && |RecordsBytes(rs)| == Sizes(rs)
    decreases |rs|
  {
    hide At, RecordBytes, Here, Sound, Writable, Size;
    if rs != [] {
      AtSplit(m, at, RecordBytes(rs[0]), RecordsBytes(rs[1..]));
      RecordParts(m, at, rs[0]);
      assert Sound(rs[0]);
      RecordIsHere(m, at, rs[0]);
      RecordsAreLaid(m, at + Size(rs[0]), rs[1..]);
    }
  }

  /** What walking written records yields, record by record. */
  function Written(at: nat, rs: seq<ResourceRecord>, answers: nat): Walk
    decreases |rs|
  {
    if rs == [] then Walk([], [], at)
    else
      var rest := Written(at + Size(rs[0]), rs[1..], if answers > 0 then answers - 1 else 0);
      if answers == 0 then rest else Walk(ServersOf(rs[0]) + rest.nameservers, [rs[0].rtype] + rest.answerTypes, rest.end)
  }

  lemma {:induction false} WalksWritten(m: seq<byte>, at: nat, rs: seq<ResourceRecord>, answers: nat)
    requires Laid(m, at, rs)
    ensures WalkRecords(m, at, |rs|, answers) == Some(Written(at, rs, answers))
    decreases |rs|
  {
    hide RecordAt, ServerIn;
    if rs != [] {
      WalksWritten(m, at + Size(rs[0]), rs[1..], if answers > 0 then answers - 1 else 0);
    }
  }

  lemma {:induction false} WrittenOthers(at: nat, rs: seq<ResourceRecord>)
    ensures Written(at, rs, 0) == Walk([], [], at + Sizes(rs))
    decreases |rs|
  {
    if rs != [] {
      WrittenOthers(at + Size(rs[0]), rs[1..]);
    }
  }

  lemma {:induction false} WrittenAnswers(at: nat, answers: seq<ResourceRecord>, others: seq<ResourceRecord>)
    ensures Written(at, answers + others, |answers|) == Walk(ServerNames(answers), Types(answers), at + Sizes(answers + others))
    decreases |answers|
  {
    var rs := answers + others;
    if answers == [] {
      assert rs == others;
      WrittenOthers(at, others);
      assert Types(answers) == [];
    } else {
      assert rs[0] == answers[0] && rs[1..] == answers[1..] + others;
      WrittenAnswers(at + Size(rs[0]), answers[1..], others);
      assert Types(answers) == [answers[0].rtype] + Types(answers[1..]);
    }
  }

  // ---------------------------------------------------------------- server and client together

  lemma HeaderReads(m: seq<byte>, id: seq<byte>, flags: seq<byte>, an: nat, ns: nat, ar: nat)
    requires |id| == 2 && |flags| == 2 && an < 65536 && ns < 65536 && ar < 65536
    requires At(m, 0, ReplyHeader(id, flags, an, ns, ar))
    ensures |m| >= HEADER && m[..2] == id && m[2] == flags[0] && m[3] == flags[1]
    ensures U16(m, 4) == 1 && U16(m, 6) == an && U16(m, 8) == ns && U16(m, 10) == ar
  {
    var h := ReplyHeader(id, flags, an, ns, ar);
    forall k | 0 <= k < HEADER ensures m[k] == h[k] {
      AtIndex(m, 0, h, k);
    }
    CountsRead(m, id + flags, an, ns, ar);
  }

  lemma CountsRead(m: seq<byte>, front: seq<byte>, an: nat, ns: nat, ar: nat)
    requires |front| == 4 && an < 65536 && ns < 65536 && ar < 65536
    requires At(m, 0, front + Put16(1) + Put16(an) + Put16(ns) + Put16(ar))
    ensures U16(m, 4) == 1 && U16(m, 6) == an && U16(m, 8) == ns && U16(m, 10) == ar
  {
    AtSplit(m, 0, front + Put16(1) + Put16(an) + Put16(ns), Put16(ar));
    AtSplit(m, 0, front + Put16(1) + Put16(an), Put16(ns));
    AtSplit(m, 0, front + Put16(1), Put16(an));
    AtSplit(m, 0, front, Put16(1));
    U16At(m, 4, 1);
    U16At(m, 6, an);
    U16At(m, 8, ns);
    U16At(m, 10, ar);
  }

  function Assembled(q: seq<byte>, flags: seq<byte>, s: Sections): seq<byte>
    requires |q| >= HEADER && |flags| == 2 && Fits(s)
  {
    ReplyHeader(q[..2], flags, |s.answers|, |s.authorities|, |s.additional|) + (q[HEADER..] + RecordsBytes(All(s)))
  }

  lemma AssembledLayout(q: seq<byte>, flags: seq<byte>, s: Sections)
    requires |q| >= HEADER && |flags| == 2 && Fits(s)
    ensures var m := Assembled(q, flags, s);
            && |m| == |q| + |RecordsBytes(All(s))| && m[..2] == q[..2] && m[2] == flags[0] && m[3] == flags[1]
            && U16(m, 4) == 1 && U16(m, 6) == |s.answers| && U16(m, 8) == |s.authorities| && U16(m, 10) == |s.additional|
            && m[HEADER..|q|] == q[HEADER..] && At(m, |q|, RecordsBytes(All(s)))
  {
    var h := ReplyHeader(q[..2], flags, |s.answers|, |s.authorities|, |s.additional|);
    var records := RecordsBytes(All(s));
    var m := Assembled(q, flags, s);
    assert At(m, 0, h + (q[HEADER..] + records));
    AtSplit(m, 0, h, q[HEADER..] + records);
    AtSplit(m, HEADER, q[HEADER..], records);
    HeaderReads(m, q[..2], flags, |s.answers|, |s.authorities|, |s.additional|);
  }

  /** A reply made of header, echoed question and records is inspected as what it says. */
  lemma AssembledReads(q: seq<byte>, flags: seq<byte>, s: Sections)
    requires |q| >= HEADER && |flags| == 2 && 128 <= flags[0] < 136
    requires AllSound(s.answers) && AllSound(s.authorities + s.additional) && Fits(s)
    ensures Inspect(Assembled(q, flags, s), q) ==
            if |Assembled(q, flags, s)| > MAX_MESSAGE then None
            else Some(Answer(flags[0] / 4 % 2 == 1, flags[1] / 128 % 2 == 1, flags[0] / 2 % 2 == 1, flags[1] % 16,
                             ServerNames(s.answers), Types(s.answers)))
  {
    hide WalkRecords, RecordsBytes, Assembled, Types, ServerNames;
    AssembledLayout(q, flags, s);
    var m := Assembled(q, flags, s);
    var w := Walk(ServerNames(s.answers), Types(s.answers), |m|);
    AssembledWalk(q, flags, s, w);
    if |m| <= MAX_MESSAGE {
      assert Echoes(m, q);
      InspectIs(m, q, |s.answers| + |s.authorities| + |s.additional|, w);
    }
  }

  lemma AssembledWalk(q: seq<byte>, flags: seq<byte>, s: Sections, w: Walk)
    requires |q| >= HEADER && |flags| == 2 && AllSound(s.answers) && AllSound(s.authorities + s.additional) && Fits(s)
    requires w == Walk(ServerNames(s.answers), Types(s.answers), |Assembled(q, flags, s)|)
    ensures WalkRecords(Assembled(q, flags, s), |q|, |s.answers| + |s.authorities| + |s.additional|, |s.answers|) == Some(w)
  {
    hide WalkRecords, RecordsBytes, Written, Assembled, At, Laid, Types, ServerNames, Sound, Writable, U16;
    var m := Assembled(q, flags, s);
    AssembledLayout(q, flags, s);
    assert All(s) == s.answers + (s.authorities + s.additional);
    RecordsAreLaid(m, |q|, All(s));
    WalksWritten(m, |q|, All(s), |s.answers|);
    WrittenAnswers(|q|, s.answers, s.authorities + s.additional);
  }

  lemma InspectIs(m: seq<byte>, q: seq<byte>, count: nat, w: Walk)
    requires |q| >= HEADER && Echoes(m, q) && count == U16(m, 6) + U16(m, 8) + U16(m, 10) <= MAX_RECORDS
    requires WalkRecords(m, |q|, count, U16(m, 6)) == Some(w) && w.end == |m|
    ensures Inspect(m, q) ==
            Some(Answer(m[2] / 4 % 2 == 1, m[3] / 128 % 2 == 1, m[2] / 2 % 2 == 1, m[3] % 16, w.nameservers, w.answerTypes))
  {
  }

  lemma FlagsRead(p: Query, validIdentity: bool, c: Config, truncated: bool)
    ensures var f := Flags(p, validIdentity, c, truncated);
            && 128 <= f[0] < 136 && (f[0] / 4 % 2 == 1 <==> Inside(p.name, c)) && (f[0] / 2 % 2 == 1 <==> truncated)
            && f[1] / 128 % 2 == 0 && f[1] % 16 == Rcode(p, validIdentity, c)
  {
  }

  /** Whether the reply is a UDP one cut at 512 bytes. */
  predicate Cut(m: seq<byte>, p: Query, validIdentity: bool, c: Config, tcp: bool)
    requires HEADER <= p.questionEnd <= |m|
    requires Servers(c) != [] && (c.soaSerial.Some? ==> c.soaSerial.value < 0x1_0000_0000)
    requires Fits(SectionsFor(p, validIdentity, c))
  {
    !tcp && |Full(m, p, validIdentity, c)| > UDP_LIMIT
  }

  lemma ParsedFits(m: seq<byte>, validIdentity: bool, c: Config)
    requires Parse(m).Some? && Valid(c)
    ensures var p := Parse(m).value;
            && Legal(p.name) && HEADER + 5 <= p.questionEnd <= |m| && p.questionEnd <= HEADER + MAX_WIRE + 4
            && p.questionEnd == HEADER + |p.name| + 6 && p.qtype < 65536
            && Servers(c) != [] && Fits(SectionsFor(p, validIdentity, c)) && AllSound(All(SectionsFor(p, validIdentity, c)))
  {
    hide Parse, SectionsFor, NameBytes, Legal;
    ReprintGivesQuestion(m);
    var p := Parse(m).value;
    NameBytesLength(p.name);
    SectionsFit(p, validIdentity, c);
    SectionsSound(p, validIdentity, c);
  }

  /**
   Server and client agree. For every message the server accepts, with or without OPT or a wish
   for recursion, and every valid configuration, a client that asked its question section accepts
   the reply exactly when it is at most 4096 bytes long, and then reports: authoritative iff the
   name is inside the zone, no recursion, truncated iff it is a UDP reply cut at 512 bytes, rcode
   5 outside, 3 for a missing name and 0 for an existing one, and the answers sent.
   */
  lemma ServerAndClientAgree(m: seq<byte>, validIdentity: bool, c: Config, tcp: bool)
    requires Parse(m).Some? && Valid(c)
    ensures var p := Parse(m).value;
            && Servers(c) != [] && Fits(SectionsFor(p, validIdentity, c))
            && (var reply := Reply(m, p, validIdentity, c, tcp);
                var s := SectionsFor(p, validIdentity, c);
                var cut := Cut(m, p, validIdentity, c, tcp);
                AllSound(s.answers) &&
                Inspect(reply, m[..p.questionEnd]) ==
                if |reply| > MAX_MESSAGE then None
                else Some(Answer(Inside(p.name, c), false, cut, Rcode(p, validIdentity, c),
                                 if cut then [] else ServerNames(s.answers), if cut then [] else Types(s.answers))))
  {
    hide Inspect, Parse, Full, Truncated, SectionsFor, Rcode, Inside, Types, ServerNames, NameBytes, Legal;
    var p := Parse(m).value;
    ParsedFits(m, validIdentity, c);
    SoundParts(SectionsFor(p, validIdentity, c));
    FullReads(m, p, validIdentity, c);
    TruncatedReads(m, p, validIdentity, c);
  }

  /** The same for a printed question of any legal name, type and id: the client's own question is the one echoed. */
  lemma PrintedQuestionAgrees(name: seq<byte>, qtype: nat, id: nat, validIdentity: bool, c: Config, tcp: bool)
    requires Legal(name) && qtype < 65536 && id < 65536 && Valid(c)
    ensures var q := Question(name, qtype, id);
            var p := Query(Lower(Ascii(name)), qtype, |q|, false);
            && Parse(q) == Some(p) && Servers(c) != [] && Fits(SectionsFor(p, validIdentity, c))
            && (var reply := Reply(q, p, validIdentity, c, tcp);
                var s := SectionsFor(p, validIdentity, c);
                var cut := Cut(q, p, validIdentity, c, tcp);
                AllSound(s.answers) &&
                Inspect(reply, q) ==
                if |reply| > MAX_MESSAGE then None
                else Some(Answer(Inside(p.name, c), false, cut, Rcode(p, validIdentity, c),
                                 if cut then [] else ServerNames(s.answers), if cut then [] else Types(s.answers))))
  {
    hide Inspect, Parse, Question, Reply, Cut, SectionsFor, Rcode, Inside, Types, ServerNames, NameBytes, Legal;
    var q := Question(name, qtype, id);
    ParseOfQuestion(name, qtype, id);
    ServerAndClientAgree(q, validIdentity, c, tcp);
    assert q[..|q|] == q;
  }

  lemma SoundParts(s: Sections)
    requires AllSound(All(s))
    ensures AllSound(s.answers) && AllSound(s.authorities + s.additional)
  {
    forall k | 0 <= k < |s.answers| ensures Sound(s.answers[k]) {
      assert All(s)[k] == s.answers[k];
    }
    forall k | 0 <= k < |s.authorities + s.additional| ensures Sound((s.authorities + s.additional)[k]) {
      assert All(s)[|s.answers| + k] == (s.authorities + s.additional)[k];
    }
  }

  lemma FullIsAssembled(m: seq<byte>, p: Query, validIdentity: bool, c: Config)
    requires HEADER <= p.questionEnd <= |m|
    requires Servers(c) != [] && (c.soaSerial.Some? ==> c.soaSerial.value < 0x1_0000_0000)
    requires Fits(SectionsFor(p, validIdentity, c))
    ensures Full(m, p, validIdentity, c) == Assembled(m[..p.questionEnd], Flags(p, validIdentity, c, false), SectionsFor(p, validIdentity, c))
  {
    hide SectionsFor, RecordsBytes, Flags, ReplyHeader, Fits;
    var q := m[..p.questionEnd];
    assert q[HEADER..] == m[HEADER..p.questionEnd] && q[..2] == m[..2];
  }

  lemma FullReads(m: seq<byte>, p: Query, validIdentity: bool, c: Config)
    requires HEADER <= p.questionEnd <= |m|
    requires Servers(c) != [] && (c.soaSerial.Some? ==> c.soaSerial.value < 0x1_0000_0000)
    requires Fits(SectionsFor(p, validIdentity, c)) && AllSound(All(SectionsFor(p, validIdentity, c)))
    ensures var s := SectionsFor(p, validIdentity, c);
            AllSound(s.answers) &&
            Inspect(Full(m, p, validIdentity, c), m[..p.questionEnd]) ==
            if |Full(m, p, validIdentity, c)| > MAX_MESSAGE then None
            else Some(Answer(Inside(p.name, c), false, false, Rcode(p, validIdentity, c), ServerNames(s.answers), Types(s.answers)))
  {
    hide Inspect, Assembled, SectionsFor, Full, Types, ServerNames, Fits, Flags, Inside, Rcode;
    var s := SectionsFor(p, validIdentity, c);
    SoundParts(s);
    FlagsRead(p, validIdentity, c, false);
    AssembledReads(m[..p.questionEnd], Flags(p, validIdentity, c, false), s);
    FullIsAssembled(m, p, validIdentity, c);
  }

  lemma TruncatedReads(m: seq<byte>, p: Query, validIdentity: bool, c: Config)
    requires HEADER <= p.questionEnd <= |m|
    ensures Inspect(Truncated(m, p, validIdentity, c), m[..p.questionEnd]) ==
            if |Truncated(m, p, validIdentity, c)| > MAX_MESSAGE then None
            else Some(Answer(Inside(p.name, c), false, true, Rcode(p, validIdentity, c), [], []))
  {
    hide Inspect, Flags, Inside, Rcode, ReplyHeader;
    var none, q := Sections([], [], []), m[..p.questionEnd];
    assert q[HEADER..] == m[HEADER..p.questionEnd] && q[..2] == m[..2];
    assert q[HEADER..] + RecordsBytes(All(none)) == q[HEADER..];
    FlagsRead(p, validIdentity, c, true);
    AssembledReads(q, Flags(p, validIdentity, c, true), none);
    assert Truncated(m, p, validIdentity, c) == Assembled(q, Flags(p, validIdentity, c, true), none);
    assert Types([]) == [];
  }

  // ---------------------------------------------------------------- answers or one SOA

  lemma SectionsAnswerOrSoa(p: Query, validIdentity: bool, c: Config)
    requires Valid(c) && Servers(c) != []
    ensures var s := SectionsFor(p, validIdentity, c);
            if Inside(p.name, c)
            then (s.answers == [] ==> s.authorities == [Soa(c)]) && (s.answers != [] ==> s.authorities == [])
                 && (forall k | 0 <= k < |s.answers| :: s.answers[k].rtype == p.qtype && s.answers[k].owner == p.name)
            else All(s) == [] && s == Sections([], [], [])
  {
  }

  /** The record at `at` has this type and owner name. */
  predicate Holds(m: seq<byte>, at: nat, rtype: nat, owner: seq<byte>) {
    && RecordAt(m, at).Some? && RecordAt(m, at).value.rtype == rtype
    && NameRead(m, at).Some? && NameRead(m, at).value.name == owner
  }

  lemma FirstHolds(m: seq<byte>, at: nat, rs: seq<ResourceRecord>)
    requires rs != [] && AllSound(rs) && AllWritable(rs) && At(m, at, RecordsBytes(rs))
    ensures Holds(m, at, rs[0].rtype, Lower(Ascii(rs[0].owner)))
  {
    hide At, RecordBytes, NameRead, RecordAt, Lower, Ascii, Legal;
    AtSplit(m, at, RecordBytes(rs[0]), RecordsBytes(rs[1..]));
    assert Sound(rs[0]);
    RecordStands(m, at, rs[0]);
    RecordParts(m, at, rs[0]);
    ReadsNameBytes(m, at, rs[0].owner);
  }

  /** The `count` records from `at` all have this type and owner name. */
  predicate AllHold(m: seq<byte>, at: nat, count: nat, rtype: nat, owner: seq<byte>)
    decreases count
  {
    count == 0 || (Holds(m, at, rtype, owner) && AllHold(m, RecordAt(m, at).value.end, count - 1, rtype, owner))
  }

  lemma {:induction false} AnswersHold(m: seq<byte>, at: nat, rs: seq<ResourceRecord>, n: nat, rtype: nat, owner: seq<byte>)
    requires n <= |rs| && AllSound(rs) && AllWritable(rs) && At(m, at, RecordsBytes(rs))
    requires forall k | 0 <= k < n :: rs[k].rtype == rtype && rs[k].owner == owner
    ensures AllHold(m, at, n, rtype, Lower(Ascii(owner)))
    decreases n
  {
    hide At, RecordBytes, NameRead, RecordAt, Lower, Ascii, Sound, Writable, Holds;
    if n > 0 {
      FirstHolds(m, at, rs);
      AtSplit(m, at, RecordBytes(rs[0]), RecordsBytes(rs[1..]));
      RecordParts(m, at, rs[0]);
      FirstIsLegal(rs);
      RecordStands(m, at, rs[0]);
      AnswersHold(m, at + Size(rs[0]), rs[1..], n - 1, rtype, owner);
    }
  }

  lemma FirstIsLegal(rs: seq<ResourceRecord>)
    requires rs != [] && AllSound(rs)
    ensures Legal(rs[0].owner)
  {
    assert Sound(rs[0]);
  }

  /** What the bytes of a reply that is not cut say about its sections. */
  ghost predicate AnswersXorSoa(r: seq<byte>, p: Query, c: Config)
    requires |r| >= HEADER
  {
    if Inside(p.name, c) then
      && U16(r, 8) <= 1 && (U16(r, 6) == 0 <==> U16(r, 8) == 1)
      && (U16(r, 6) == 0 ==> Holds(r, p.questionEnd, 6, Zone(c)))
      && AllHold(r, p.questionEnd, U16(r, 6), p.qtype, p.name)
      && (var w := WalkRecords(r, p.questionEnd, U16(r, 6) + U16(r, 8) + U16(r, 10), U16(r, 6));
          && w.Some? && w.value.end == |r| && |w.value.answerTypes| == U16(r, 6)
          && forall k | 0 <= k < |w.value.answerTypes| :: w.value.answerTypes[k] == p.qtype)
    else U16(r, 6) == 0 && U16(r, 8) == 0 && U16(r, 10) == 0 && |r| == p.questionEnd
  }

  lemma AssembledXorSoa(q: seq<byte>, p: Query, flags: seq<byte>, validIdentity: bool, c: Config)
    requires Valid(c) && Servers(c) != [] && HEADER <= p.questionEnd == |q| && |flags| == 2 && Lower(Ascii(p.name)) == p.name
    requires Fits(SectionsFor(p, validIdentity, c)) && AllSound(All(SectionsFor(p, validIdentity, c)))
    ensures |Assembled(q, flags, SectionsFor(p, validIdentity, c))| >= HEADER
    ensures AnswersXorSoa(Assembled(q, flags, SectionsFor(p, validIdentity, c)), p, c)
  {
    hide Assembled, RecordsBytes, WalkRecords, At, Inside, Holds, AllHold, Legal, Lower, Ascii, SectionsFor, Servers, U16, ServerNames, Sound, Writable, Soa;
    var s := SectionsFor(p, validIdentity, c);
    var r := Assembled(q, flags, s);
    SectionsAnswerOrSoa(p, validIdentity, c);
    AssembledLayout(q, flags, s);
    SoundParts(s);
    AssembledWalk(q, flags, s, Walk(ServerNames(s.answers), Types(s.answers), |r|));
    if Inside(p.name, c) {
      FirstHolds(r, |q|, All(s));
      forall k | 0 <= k < |s.answers| ensures All(s)[k].rtype == p.qtype && All(s)[k].owner == p.name {
        assert All(s)[k] == s.answers[k];
      }
      AnswersHold(r, |q|, All(s), |s.answers|, p.qtype, p.name);
      ServersPlain(c);
      SoaOwner(c);
    } else {
      NoRecords(s);
    }
  }

  lemma SoaOwner(c: Config)
    requires Valid(c) && Servers(c) != []
    ensures Soa(c).rtype == 6 && Soa(c).owner == Zone(c)
  {
  }

  lemma NoRecords(s: Sections)
    requires All(s) == []
    ensures RecordsBytes(All(s)) == []
  {
  }

  /**
   Read off the bytes, for every accepted message: a reply from inside the zone that is not cut
   has answers or exactly one authority, never both; every answer has the asked type and
   the asked name, and the authority is the zone's SOA. Outside the zone it has no records.
   */
  lemma AnswersOrSoa(m: seq<byte>, validIdentity: bool, c: Config, tcp: bool)
    requires Parse(m).Some? && Valid(c)
    ensures var p := Parse(m).value;
            && Servers(c) != [] && Fits(SectionsFor(p, validIdentity, c))
            && (!Cut(m, p, validIdentity, c, tcp) ==>
                  |Reply(m, p, validIdentity, c, tcp)| >= HEADER && AnswersXorSoa(Reply(m, p, validIdentity, c, tcp), p, c))
  {
    hide Parse, SectionsFor, Full, Truncated, AnswersXorSoa, Legal, Flags, Assembled, NameBytes;
    var p := Parse(m).value;
    ParsedFits(m, validIdentity, c);
    ParsedIsPlain(m);
    FullIsAssembled(m, p, validIdentity, c);
    AssembledXorSoa(m[..p.questionEnd], p, Flags(p, validIdentity, c, false), validIdentity, c);
  }

  // ---------------------------------------------------------------- delegation answers

  lemma LowerTwice(s: seq<byte>)
    ensures Lower(Lower(s)) == Lower(s)
  {
  }

  lemma ServersPlain(c: Config)
    requires Valid(c)
    ensures Ascii(Zone(c)) == Zone(c) && Lower(Zone(c)) == Zone(c)
    ensures forall k | 0 <= k < |Servers(c)| :: Lower(Ascii(Servers(c)[k])) == Servers(c)[k]
  {
    LowerTwice(c.baseDomain);
    match c.nameServers
    case None =>
      var name := NS1 + Zone(c);
      assert Lower(Ascii(name)) == name;
    case Some(names) =>
      forall k | 0 <= k < |names| ensures Lower(Ascii(Lower(names[k]))) == Lower(names[k]) {
        assert Ascii(Lower(names[k])) == Lower(names[k]);
        LowerTwice(names[k]);
      }
  }

  lemma {:induction false} NsNames(c: Config, servers: seq<seq<byte>>)
    requires forall k | 0 <= k < |servers| :: Lower(Ascii(servers[k])) == servers[k]
    ensures ServerNames(NsRecords(c, servers)) == servers
    decreases |servers|
  {
    if servers != [] {
      assert NsRecords(c, servers)[1..] == NsRecords(c, servers[1..]);
      NsNames(c, servers[1..]);
      assert [servers[0]] + servers[1..] == servers;
    }
  }

  function TotalLength(names: seq<seq<byte>>): nat
    decreases |names|
  {
    if names == [] then 0 else |names[0]| + TotalLength(names[1..])
  }

  lemma {:induction false} SizesOfConcat(a: seq<ResourceRecord>, b: seq<ResourceRecord>)
    ensures Sizes(a + b) == Sizes(a) + Sizes(b)
    decreases |a|
  {
    if a == [] {
      assert a + b == b;
    } else {
      assert (a + b)[1..] == a[1..] + b;
      SizesOfConcat(a[1..], b);
    }
  }

  lemma {:induction false} NsSizes(c: Config, servers: seq<seq<byte>>)
    ensures Sizes(NsRecords(c, servers)) == |servers| * (|Zone(c)| + 14) + TotalLength(servers)
    decreases |servers|
  {
    if servers != [] {
      NsSizes(c, servers[1..]);
      assert NsRecords(c, servers)[1..] == NsRecords(c, servers[1..]);
      assert |servers| * (|Zone(c)| + 14) == (|servers| - 1) * (|Zone(c)| + 14) + (|Zone(c)| + 14);
    }
  }

  lemma {:induction false} GlueSizes(c: Config, servers: seq<seq<byte>>)
    requires |c.ipv4| == 4 && |c.ipv6| == 16
    ensures Sizes(Glue(c, servers)) == |servers| * 16 + TotalLength(servers) + (if c.publishIpv6 then |servers| * 28 + TotalLength(servers) else 0)
    decreases |servers|
  {
    if servers != [] {
      var more := Glue(c, servers[1..]);
      GlueSizes(c, servers[1..]);
      var four := ResourceRecord(servers[0], 1, Raw(c.ipv4));
      var six := ResourceRecord(servers[0], 28, Raw(c.ipv6));
      if c.publishIpv6 {
        assert Glue(c, servers) == [four] + ([six] + more);
        SizesOfConcat([four], [six] + more);
        SizesOfConcat([six], more);
      } else {
        assert Glue(c, servers) == [four] + more;
        SizesOfConcat([four], more);
      }
    }
  }

  /** The length of the TCP answer to the zone's own NS question. */
  function DelegationLength(c: Config): nat {
    var n, total := |Servers(c)|, TotalLength(Servers(c));
    18 + |Zone(c)| + n * (|Zone(c)| + 30) + 2 * total + (if c.publishIpv6 then n * 28 + total else 0)
  }

  lemma DelegationSections(c: Config, p: Query, validIdentity: bool)
    requires Valid(c) && p.name == Zone(c) && p.qtype == 2 && Servers(c) != []
    ensures SectionsFor(p, validIdentity, c) == Sections(NsRecords(c, Servers(c)), [], Glue(c, Servers(c)))
  {
  }

  lemma DelegationFullLength(c: Config, m: seq<byte>, p: Query, validIdentity: bool)
    requires Valid(c) && p.questionEnd == |Zone(c)| + 18 <= |m| && p.name == Zone(c) && p.qtype == 2
    requires Servers(c) != [] && Fits(SectionsFor(p, validIdentity, c))
    ensures |Full(m, p, validIdentity, c)| == DelegationLength(c)
  {
    hide Glue, NsRecords, Sizes, RecordsBytes, SectionsFor, Servers, TotalLength, Soa, Legal;
    var s := SectionsFor(p, validIdentity, c);
    DelegationSections(c, p, validIdentity);
    assert All(s) == s.answers + s.additional;
    SizesOfConcat(s.answers, s.additional);
    NsSizes(c, Servers(c));
    GlueSizes(c, Servers(c));
    RecordsLength(All(s));
    ServerSizes(|Servers(c)|, |Zone(c)|);
  }

  lemma ServerSizes(n: nat, z: nat)
    ensures n * (z + 14) + n * 16 == n * (z + 30)
  {
  }

  lemma {:induction false} RecordsLength(rs: seq<ResourceRecord>)
    requires AllWritable(rs)
    ensures |RecordsBytes(rs)| == Sizes(rs)
    decreases |rs|
  {
    hide At, RecordBytes;
    if rs != [] {
      RecordLength(rs[0]);
      RecordsLength(rs[1..]);
    }
  }

  lemma RecordLength(r: ResourceRecord)
    requires Writable(r)
    ensures |RecordBytes(r)| == Size(r)
  {
    NameBytesLength(r.owner);
    DataLength(r.data);
  }

  /** The zone's own NS question over TCP, which is answered with the whole delegation. */
  predicate AsksDelegation(p: Query, c: Config, tcp: bool) {
    tcp && p.qtype == 2 && p.name == Zone(c)
  }

  lemma SoaSize(c: Config)
    requires Valid(c) && Servers(c) != []
    ensures Size(Soa(c)) <= 700
  {
    ServersLegal(c);
    NameBytesLength(Servers(c)[0]);
    NameBytesLength(HOSTMASTER + Zone(c));
  }

  lemma OneSize(r: ResourceRecord)
    ensures Sizes([r]) == Size(r)
  {
    assert [r][1..] == [];
  }

  /** Apart from the delegation a reply has at most one record, of at most 700 bytes. */
  lemma OtherSizes(p: Query, validIdentity: bool, c: Config)
    requires Valid(c) && Servers(c) != [] && |p.name| <= MAX_WIRE && !(p.qtype == 2 && p.name == Zone(c))
    ensures Sizes(All(SectionsFor(p, validIdentity, c))) <= 700
  {
    hide Sizes, Soa, NsRecords, Glue, Servers, Legal;
    var rs := All(SectionsFor(p, validIdentity, c));
    SoaSize(c);
    if rs != [] {
      OneSize(rs[0]);
      assert rs == [rs[0]];
      assert rs[0] == Soa(c) || rs[0].data == Raw(c.ipv4) || rs[0].data == Raw(c.ipv6);
    } else {
      assert Sizes([]) == 0 by { SizesOfNone(); }
    }
  }

  lemma SizesOfNone()
    ensures Sizes([]) == 0
  {
  }

  lemma FullLength(m: seq<byte>, p: Query, validIdentity: bool, c: Config)
    requires HEADER <= p.questionEnd <= |m|
    requires Servers(c) != [] && (c.soaSerial.Some? ==> c.soaSerial.value < 0x1_0000_0000)
    requires Fits(SectionsFor(p, validIdentity, c))
    ensures |Full(m, p, validIdentity, c)| == p.questionEnd + Sizes(All(SectionsFor(p, validIdentity, c)))
  {
    hide SectionsFor, RecordsBytes, Sizes;
    RecordsLength(All(SectionsFor(p, validIdentity, c)));
  }

  /**
   Which replies the client accepts, for every accepted message and valid configuration: all of
   them, except the zone's own delegation over TCP when its length, a sum over the configured
   names, exceeds 4096 bytes.
   */
  lemma ReplyIsReadIff(m: seq<byte>, validIdentity: bool, c: Config, tcp: bool)
    requires Parse(m).Some? && Valid(c)
    ensures var p := Parse(m).value;
            && Servers(c) != [] && Fits(SectionsFor(p, validIdentity, c))
            && (Inspect(Reply(m, p, validIdentity, c, tcp), m[..p.questionEnd]).Some?
                <==> !AsksDelegation(p, c, tcp) || DelegationLength(c) <= MAX_MESSAGE)
  {
    hide Parse, Inspect, SectionsFor, Full, Truncated, Legal, NameBytes, Sizes, DelegationLength, Servers, Rcode, Inside, Types, ServerNames;
    var p := Parse(m).value;
    ParsedFits(m, validIdentity, c);
    ServerAndClientAgree(m, validIdentity, c, tcp);
    if AsksDelegation(p, c, tcp) {
      DelegationFullLength(c, m, p, validIdentity);
    } else if !tcp {
      UdpReplyFits(m, validIdentity, c);
    } else {
      OtherSizes(p, validIdentity, c);
      FullLength(m, p, validIdentity, c);
    }
  }

  /** When the delegation is read, the client learns exactly the configured servers. */
  lemma DelegationIsRead(c: Config, id: nat)
    requires Valid(c) && id < 65536 && DelegationLength(c) <= MAX_MESSAGE
    ensures var q := Question(Zone(c), 2, id);
            var p := Query(Zone(c), 2, |q|, false);
            && Parse(q) == Some(p) && Servers(c) != [] && Fits(SectionsFor(p, false, c))
            && Inspect(Reply(q, p, false, c, true), q) == Some(Answer(true, false, false, 0, Servers(c), seq(|Servers(c)|, _ => 2)))
  {
    hide Inspect, Parse, Question, Full, NameBytes, Legal, Split;
    ServersLegal(c);
    ServersPlain(c);
    PrintedQuestionAgrees(Zone(c), 2, id, false, c, true);
    var q := Question(Zone(c), 2, id);
    var p := Query(Zone(c), 2, |q|, false);
    QuestionLength(Zone(c), 2, id);
    DelegationFullLength(c, q, p, false);
    NsNames(c, Servers(c));
    assert Types(NsRecords(c, Servers(c))) == seq(|Servers(c)|, _ => 2);
  }

  lemma QuestionLength(name: seq<byte>, qtype: nat, id: nat)
    requires qtype < 65536 && id < 65536
    ensures |Question(name, qtype, id)| == |name| + 18
  {
    NameBytesLength(name);
  }

  // ---------------------------------------------------------------- a valid configuration the client cannot read

  function Repeat(c: byte, n: nat): (l: seq<byte>)
    ensures |l| == n
  {
    seq(n, _ => c)
  }

  const LONG_ZONE: seq<seq<byte>> := [Repeat(97, 62), Repeat(97, 62), Repeat(97, 61)]

  function LongServer(k: byte): seq<seq<byte>> {
    [Repeat(98, 63), [k]] + LONG_ZONE
  }

  function LongConfig(): Config {
    Config(Join(LONG_ZONE), Some([Join(LongServer(97)), Join(LongServer(98)), Join(LongServer(99)), Join(LongServer(100))]),
           None, [127, 0, 0, 1], Repeat(0, 16), true)
  }

  lemma RepeatPlain(c: byte, n: nat)
    requires 97 <= c <= 122 && 1 <= n <= 63
    ensures Readable(Repeat(c, n)) && Dotless(Repeat(c, n)) && Lower(Repeat(c, n)) == Repeat(c, n) && Ascii(Repeat(c, n)) == Repeat(c, n)
  {
  }

  lemma PlainJoin(ls: seq<seq<byte>>)
    requires ls != [] && forall k | 0 <= k < |ls| :: Readable(ls[k]) && Dotless(ls[k]) && Lower(ls[k]) == ls[k] && Ascii(ls[k]) == ls[k]
    requires |Join(ls)| <= MAX_TEXT
    ensures Legal(Join(ls)) && IsAscii(Join(ls)) && Lower(Join(ls)) == Join(ls)
  {
    SplitOfJoin(ls);
    LowerOfJoin(ls);
    AsciiOfJoin(ls);
    assert LowerAll(ls) == ls && AsciiAll(ls) == ls;
    forall k | 0 <= k < |Join(ls)| ensures Join(ls)[k] < 128 {
      assert Ascii(Join(ls))[k] == Join(ls)[k];
    }
  }

  lemma LongZonePlain()
    ensures |Join(LONG_ZONE)| == 187 && Legal(Join(LONG_ZONE)) && IsAscii(Join(LONG_ZONE)) && Lower(Join(LONG_ZONE)) == Join(LONG_ZONE)
  {
    RepeatPlain(97, 62);
    RepeatPlain(97, 61);
    assert LONG_ZONE[1..] == [Repeat(97, 62), Repeat(97, 61)] && LONG_ZONE[1..][1..] == [Repeat(97, 61)];
    PlainJoin(LONG_ZONE);
  }

  lemma LongServerPlain(k: byte)
    requires 97 <= k <= 100
    ensures |Join(LongServer(k))| == 253 && Legal(Join(LongServer(k))) && IsAscii(Join(LongServer(k)))
    ensures Lower(Join(LongServer(k))) == Join(LongServer(k)) && Below(Join(LongServer(k)), Join(LONG_ZONE))
  {
    LongZonePlain();
    RepeatPlain(98, 63);
    RepeatPlain(97, 62);
    RepeatPlain(97, 61);
    var ls := LongServer(k);
    var one: seq<byte> := [k];
    assert one == Repeat(k, 1);
    RepeatPlain(k, 1);
    assert ls[1..] == [one] + LONG_ZONE && ls[1..][1..] == LONG_ZONE;
    assert Join(ls) == Repeat(98, 63) + [DOT] + (one + [DOT] + Join(LONG_ZONE));
    assert Join(ls)[65..] == [DOT] + Join(LONG_ZONE);
    PlainJoin(ls);
  }

  /** The schema admits a configuration whose delegation is 4221 bytes long, which the client refuses. */
  lemma SomeDelegationIsRefused(id: nat)
    requires id < 65536
    ensures var c := LongConfig();
            var q := Question(Zone(c), 2, id);
            var p := Query(Zone(c), 2, |q|, false);
            && Valid(c) && DelegationLength(c) == 4221
            && Parse(q) == Some(p) && Servers(c) != [] && Fits(SectionsFor(p, false, c))
            && Inspect(Reply(q, p, false, c, true), q).None?
  {
    var c := LongConfig();
    hide Inspect, Parse, Question, Reply, SectionsFor, Servers, LongConfig, Legal, DelegationLength, NameBytes;
    LongConfigValid();
    ServersLegal(c);
    ServersPlain(c);
    var q := Question(Zone(c), 2, id);
    ParseOfQuestion(Zone(c), 2, id);
    ReplyIsReadIff(q, false, c, true);
    assert q[..|q|] == q;
  }

  lemma LongConfigValid()
    ensures Valid(LongConfig()) && DelegationLength(LongConfig()) == 4221
  {
    hide Join, Legal, Below, LongServer;
    var c := LongConfig();
    LongZonePlain();
    LongServerPlain(97);
    LongServerPlain(98);
    LongServerPlain(99);
    LongServerPlain(100);
    var names := c.nameServers.value;
    assert Servers(c) == names;
    assert TotalLength(names) == 1012 by {
      assert names[1..] == [Join(LongServer(98)), Join(LongServer(99)), Join(LongServer(100))];
      assert names[1..][1..] == [Join(LongServer(99)), Join(LongServer(100))];
      assert names[1..][1..][1..] == [Join(LongServer(100))];
    }
  }
}
