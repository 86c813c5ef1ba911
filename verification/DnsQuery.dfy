/**
 Questions: the printer `oastDnsQuestion`, the parser `parseOastDnsQuery` and the callback name
 `oastDnsIdentity`.
 */
module DnsQuery {
  import opened Common
  import opened Bytes
  import opened DnsName

  const HEADER: nat := 12
  const MIN_QUERY: nat := 17
  const MAX_MESSAGE: nat := 4096

  datatype Query = Query(name: seq<byte>, qtype: nat, questionEnd: nat, recursionDesired: bool)

  // ---------------------------------------------------------------- the printer

  /** `oastDnsQuestion` */
  function Question(name: seq<byte>, qtype: nat, id: nat): seq<byte>
    requires qtype < 65536 && id < 65536
  {
    QuestionHeader(id) + (NameBytes(name) + QuestionTail(qtype))
  }

  function QuestionHeader(id: nat): seq<byte>
    requires id < 65536
  {
    Put16(id) + [0, 0, 0, 1, 0, 0, 0, 0, 0, 0]
  }

  function QuestionTail(qtype: nat): seq<byte>
    requires qtype < 65536
  {
    Put16(qtype) + [0, 1]
  }

  // ---------------------------------------------------------------- what the parser accepts

  /** The labels read from `at`, ASCII-decoded, and the offset after the terminator. */
  datatype Labels = Labels(labels: seq<seq<byte>>, end: nat)

  function Prefixed(labels: seq<seq<byte>>, r: Option<Labels>): Option<Labels> {
    match r
    case None => None
    case Some(found) => Some(Labels(labels + found.labels, found.end))
  }

  function ReadLabels(m: seq<byte>, at: nat): (r: Option<Labels>)
    ensures r.Some? ==> at < r.value.end <= |m|
    decreases |m| - at
  {
    if at >= |m| then None
    else
      var size := m[at];
      if size == 0 then Some(Labels([], at + 1))
      else if size > 63 || at + 1 + size > |m| then None
      else if !Readable(m[at + 1..at + 1 + size]) then None
      else if at + 1 + size - HEADER > 254 then None
      else Prefixed([Ascii(m[at + 1..at + 1 + size])], ReadLabels(m, at + 1 + size))
  }

  /** `(flags & 0xf84f) === 0`: a standard query, not truncated into a response code. */
  predicate QueryFlags(m: seq<byte>)
    requires |m| >= HEADER
  {
    var hi: int, lo: int := m[2], m[3];
    hi < 8 && lo % 16 == 0 && lo / 64 % 2 == 0
  }

  /** One question, no answers, no authorities, at most one additional record. */
  predicate QueryCounts(m: seq<byte>)
    requires |m| >= HEADER
  {
    U16(m, 4) == 1 && U16(m, 6) == 0 && U16(m, 8) == 0 && U16(m, 10) <= 1
  }

  /** The options of an OPT record fill `[at, end)` exactly. */
  predicate OptionsFill(m: seq<byte>, at: nat, end: nat)
    requires end <= |m|
    decreases |m| - at
  {
    if at >= end then at == end
    else at + 4 <= end && OptionsFill(m, at + 4 + U16(m, at + 2), end)
  }

  /** The rest of the message is one OPT record of version 0 (section 6.1.2 of RFC 6891). */
  predicate OptFollows(m: seq<byte>, at: nat) {
    && at + 11 <= |m| && m[at] == 0 && U16(m, at + 1) == 41 && m[at + 6] == 0 && m[at + 5] == 0
    && at + 11 + U16(m, at + 9) == |m|
    && OptionsFill(m, at + 11, |m|)
  }

  /** `parseOastDnsQuery` as one expression. */
  function Parse(m: seq<byte>): (r: Option<Query>)
    ensures r.Some? ==> HEADER + 5 <= r.value.questionEnd <= |m|
  {
    if |m| < MIN_QUERY || |m| > MAX_MESSAGE || !QueryFlags(m) || !QueryCounts(m) then None
    else match ReadLabels(m, HEADER)
      case None => None
      case Some(found) =>
        if found.labels == [] || found.end - HEADER > MAX_WIRE || found.end + 4 > |m| || U16(m, found.end + 2) != 1 then None
        else
          var questionEnd := found.end + 4;
          if !(if U16(m, 10) == 0 then questionEnd == |m| else OptFollows(m, questionEnd)) then None
          else Some(Query(Lower(Join(found.labels)), U16(m, found.end), questionEnd, m[2] % 2 == 1))
  }

  // ---------------------------------------------------------------- reading what was printed

  lemma LabelStands(m: seq<byte>, at: nat, l: seq<byte>, rest: seq<byte>)
    requires At(m, at, LabelBytes(l) + rest) && |l| < 256
    ensures m[at] == |l| && m[at + 1..at + 1 + |l|] == l && At(m, at + 1 + |l|, rest)
  {
    AtSplit(m, at, LabelBytes(l), rest);
    AtSplit(m, at, [|l| % 256], l);
    AtIndex(m, at, LabelBytes(l), 0);
  }

  lemma LabelIsRead(m: seq<byte>, at: nat, l: seq<byte>)
    requires Readable(l) && at + 1 + |l| <= |m| && at + 1 + |l| - HEADER <= 254
    requires m[at] == |l| && m[at + 1..at + 1 + |l|] == l
    ensures ReadLabels(m, at) == Prefixed([Ascii(l)], ReadLabels(m, at + 1 + |l|))
  {
  }

  lemma FirstOfWireName(ls: seq<seq<byte>>)
    requires ls != []
    ensures WireName(ls) == LabelBytes(ls[0]) + WireName(ls[1..]) && |WireName(ls[1..])| >= 1
  {
  }

  lemma FirstIsReadable(ls: seq<seq<byte>>)
    requires ls != [] && AllReadable(ls)
    ensures Readable(ls[0]) && |ls[0]| < 64 && AllReadable(ls[1..])
  {
  }

  lemma TerminatorIsRead(m: seq<byte>, at: nat)
    requires At(m, at, WireName([]))
    ensures ReadLabels(m, at) == Some(Labels([], at + 1)) && |WireName([])| == 1
  {
    AtIndex(m, at, WireName([]), 0);
  }

  lemma AsciiFirst(ls: seq<seq<byte>>)
    requires ls != []
    ensures AsciiAll(ls) == [Ascii(ls[0])] + AsciiAll(ls[1..])
  {
  }

  lemma {:induction false} ReadsPrintedLabels(m: seq<byte>, at: nat, ls: seq<seq<byte>>)
    requires At(m, at, WireName(ls)) && AllReadable(ls) && at + |WireName(ls)| - HEADER <= MAX_WIRE
    ensures ReadLabels(m, at) == Some(Labels(AsciiAll(ls), at + |WireName(ls)|))
    decreases |ls|
  {
    hide ReadLabels, At, Readable, AllReadable, WireName, Ascii;
    if ls == [] {
      TerminatorIsRead(m, at);
    } else {
      hide AsciiAll;
      var l := ls[0];
      FirstOfWireName(ls);
      FirstIsReadable(ls);
      LabelStands(m, at, l, WireName(ls[1..]));
      ReadsPrintedLabels(m, at + 1 + |l|, ls[1..]);
      LabelIsRead(m, at, l);
      AsciiFirst(ls);
    }
  }

  /** The label bytes that stand at `at`, before ASCII decoding. */
  function RawLabels(m: seq<byte>, at: nat): seq<seq<byte>>
    decreases |m| - at
  {
    if at >= |m| || m[at] == 0 || at + 1 + m[at] > |m| then [] else [m[at + 1..at + 1 + m[at]]] + RawLabels(m, at + 1 + m[at])
  }

  lemma {:induction false} ReadLabelsAreThere(m: seq<byte>, at: nat)
    requires ReadLabels(m, at).Some?
    ensures var found := ReadLabels(m, at).value;
            var raw := RawLabels(m, at);
            && AllReadable(raw) && found.labels == AsciiAll(raw)
            && At(m, at, WireName(raw)) && found.end == at + |WireName(raw)|
            && (raw != [] ==> found.end - HEADER <= MAX_WIRE)
    decreases |m| - at
  {
    if m[at] == 0 {
      assert m[at..at + 1] == [0];
    } else {
      var next := at + 1 + m[at];
      LabelReadBack(m, at);
      hide ReadLabels, RawLabels, Readable, Ascii, At;
      var l := m[at + 1..next];
      var more := RawLabels(m, next);
      ReadLabelsAreThere(m, next);
      assert WireName([l] + more) == LabelBytes(l) + WireName(more);
      AtSplit(m, at, LabelBytes(l), WireName(more));
      assert AsciiAll([l] + more) == [Ascii(l)] + AsciiAll(more);
    }
  }

  lemma LabelReadBack(m: seq<byte>, at: nat)
    requires ReadLabels(m, at).Some? && m[at] != 0
    ensures var next := at + 1 + m[at];
            && next <= |m| && next - HEADER <= 254 && Readable(m[at + 1..next]) && At(m, at, LabelBytes(m[at + 1..next]))
            && ReadLabels(m, next).Some? && ReadLabels(m, at) == Prefixed([Ascii(m[at + 1..next])], ReadLabels(m, next))
            && RawLabels(m, at) == [m[at + 1..next]] + RawLabels(m, next)
  {
    var next := at + 1 + m[at];
    assert m[at..next] == LabelBytes(m[at + 1..next]);
  }

  // ---------------------------------------------------------------- round trips

  lemma QuestionParts(name: seq<byte>, qtype: nat, id: nat)
    requires qtype < 65536 && id < 65536
    ensures var q := Question(name, qtype, id);
            At(q, 0, QuestionHeader(id)) && At(q, HEADER, NameBytes(name)) && At(q, HEADER + |NameBytes(name)|, QuestionTail(qtype))
  {
    var q := Question(name, qtype, id);
    assert At(q, 0, QuestionHeader(id) + (NameBytes(name) + QuestionTail(qtype)));
    AtSplit(q, 0, QuestionHeader(id), NameBytes(name) + QuestionTail(qtype));
    AtSplit(q, HEADER, NameBytes(name), QuestionTail(qtype));
  }

  lemma HeaderStands(q: seq<byte>, id: nat)
    requires id < 65536 && |q| >= HEADER && At(q, 0, QuestionHeader(id))
    ensures QueryFlags(q) && U16(q, 4) == 1 && U16(q, 6) == 0 && U16(q, 8) == 0 && U16(q, 10) == 0 && q[2] == 0
  {
    forall k | 0 <= k < HEADER ensures q[k] == QuestionHeader(id)[k] {
      AtIndex(q, 0, QuestionHeader(id), k);
    }
  }

  lemma TailStands(q: seq<byte>, at: nat, qtype: nat)
    requires qtype < 65536 && At(q, at, QuestionTail(qtype))
    ensures U16(q, at) == qtype && U16(q, at + 2) == 1
  {
    AtSplit(q, at, Put16(qtype), [0, 1]);
    U16At(q, at, qtype);
    assert Put16(1) == [0, 1];
    U16At(q, at + 2, 1);
  }

  lemma QuestionLayout(name: seq<byte>, qtype: nat, id: nat)
    requires qtype < 65536 && id < 65536
    ensures var q := Question(name, qtype, id);
            var n := |NameBytes(name)|;
            && |q| == HEADER + n + 4 && At(q, HEADER, NameBytes(name))
            && QueryFlags(q) && U16(q, 4) == 1 && U16(q, 6) == 0 && U16(q, 8) == 0 && U16(q, 10) == 0 && q[2] == 0
            && U16(q, HEADER + n) == qtype && U16(q, HEADER + n + 2) == 1
  {
    var q := Question(name, qtype, id);
    QuestionParts(name, qtype, id);
    HeaderStands(q, id);
    TailStands(q, HEADER + |NameBytes(name)|, qtype);
  }

  /** Every legal name is read back: its text in lower case, its type, and the whole message. */
  lemma ParseOfQuestion(name: seq<byte>, qtype: nat, id: nat)
    requires qtype < 65536 && id < 65536 && Legal(name)
    ensures Parse(Question(name, qtype, id)) ==
            Some(Query(Lower(Ascii(name)), qtype, |Question(name, qtype, id)|, false))
  {
    var q := Question(name, qtype, id);
    var ls := Split(name);
    QuestionLayout(name, qtype, id);
    JoinOfSplit(name);
    WireLength(ls);
    ReadsPrintedLabels(q, HEADER, ls);
    AsciiOfJoin(ls);
    assert AsciiAll(ls) != [];
    assert |LabelBytes(ls[0])| >= 2;
  }

  /** A wire name whose whole length is read as readable labels is a legal one. */
  lemma OnlyLegalIsRead(name: seq<byte>, raw: seq<seq<byte>>)
    requires AllReadable(raw) && raw != [] && WireName(raw) == NameBytes(name) && |WireName(raw)| <= MAX_WIRE
    ensures Legal(name)
  {
    var ls := Split(name);
    forall k | 0 <= k < |ls| ensures |ls[k]| < 256 {
      LabelsFit(ls, k);
    }
    WireNameInjective(ls, raw);
    WireLength(ls);
    JoinOfSplit(name);
  }

  lemma ParsedIsLegal(name: seq<byte>, qtype: nat, id: nat)
    requires qtype < 65536 && id < 65536 && Parse(Question(name, qtype, id)).Some?
    ensures Legal(name)
  {
    var q := Question(name, qtype, id);
    QuestionLayout(name, qtype, id);
    ReadLabelsAreThere(q, HEADER);
    var raw := RawLabels(q, HEADER);
    assert AsciiAll(raw) != [];
    assert |WireName(raw)| == |NameBytes(name)|;
    OnlyLegalIsRead(name, raw);
  }

  /** Exactly the legal names survive printing, for every byte string used as a name. */
  lemma ParsesExactlyLegal(name: seq<byte>, qtype: nat, id: nat)
    requires qtype < 65536 && id < 65536
    ensures Parse(Question(name, qtype, id)).Some? <==> Legal(name)
  {
    if Legal(name) {
      ParseOfQuestion(name, qtype, id);
    } else if Parse(Question(name, qtype, id)).Some? {
      ParsedIsLegal(name, qtype, id);
    }
  }

  lemma ParsedParts(m: seq<byte>)
    requires Parse(m).Some?
    ensures var q, found := Parse(m).value, ReadLabels(m, HEADER);
            && found.Some? && found.value.labels != [] && found.value.end <= HEADER + MAX_WIRE
            && q.questionEnd == found.value.end + 4 <= |m|
            && q.name == Lower(Join(found.value.labels))
            && q.qtype == U16(m, found.value.end) && U16(m, found.value.end + 2) == 1
  {
    hide ReadLabels, Lower, Join, U16, OptFollows;
  }

  /**
   For every accepted message, with or without OPT: the question section is the parsed name and
   type printed again, once the name part is decoded as ASCII and put in lower case. The name is
   at most 253 bytes long and the question section ends by byte 271.
   */
  lemma ReprintGivesQuestion(m: seq<byte>)
    requires Parse(m).Some?
    ensures var q := Parse(m).value;
            && q.questionEnd <= |m| && q.questionEnd <= HEADER + MAX_WIRE + 4 && |q.name| <= MAX_WIRE - 2
            && q.qtype < 65536 && Legal(q.name) && Lower(q.name) == q.name
            && HEADER + 5 <= q.questionEnd
            && NameBytes(q.name) == Lower(Ascii(m[HEADER..q.questionEnd - 4]))
            && m[q.questionEnd - 4..q.questionEnd] == Put16(q.qtype) + [0, 1]
  {
    ParsedParts(m);
    hide Parse, ReadLabels, RawLabels, Legal, Join;
    var q := Parse(m).value;
    ReadLabelsAreThere(m, HEADER);
    var raw := RawLabels(m, HEADER);
    assert raw != [] by {
      assert AsciiAll(raw) != [];
    }
    PrintedLabels(raw);
    AsciiOfJoin(raw);
    WireLength(raw);
    var end := q.questionEnd - 4;
    assert m[HEADER..end] == WireName(raw);
    assert |LabelBytes(raw[0])| >= 2;
    PlainNameIsLegal(raw);
    PutBack(m, end);
    PutBack(m, end + 2);
    assert Put16(1) == [0, 1];
    assert m[end..end + 4] == m[end..end + 2] + m[end + 2..end + 4];
  }

  /** A parsed name is plain text: ASCII and in lower case. */
  lemma ParsedIsPlain(m: seq<byte>)
    requires Parse(m).Some?
    ensures Lower(Ascii(Parse(m).value.name)) == Parse(m).value.name
  {
    ParsedParts(m);
    hide Parse, ReadLabels, RawLabels, Join;
    ReadLabelsAreThere(m, HEADER);
    var raw := RawLabels(m, HEADER);
    AsciiOfJoin(raw);
    LowerAsciiTwice(Join(raw));
  }

  lemma LowerAsciiTwice(s: seq<byte>)
    ensures Lower(Ascii(Lower(Ascii(s)))) == Lower(Ascii(s))
  {
  }

  lemma PutBack(m: seq<byte>, at: nat)
    requires at + 2 <= |m|
    ensures m[at..at + 2] == Put16(U16(m, at))
  {
    var hi: int, lo: int := m[at], m[at + 1];
    assert (hi * 256 + lo) / 256 == hi && (hi * 256 + lo) % 256 == lo;
  }

  lemma PlainNameIsLegal(raw: seq<seq<byte>>)
    requires AllReadable(raw) && raw != [] && |Join(raw)| <= MAX_WIRE - 2
    ensures Legal(Lower(Join(AsciiAll(raw)))) && Lower(Lower(Join(AsciiAll(raw)))) == Lower(Join(AsciiAll(raw)))
  {
    var plain := AsciiAll(raw);
    forall k | 0 <= k < |raw| ensures Readable(LowerAll(plain)[k]) && Dotless(LowerAll(plain)[k]) {
      AsciiOfReadable(raw[k]);
    }
    LowerOfJoin(plain);
    AsciiOfJoin(raw);
    SplitOfJoin(LowerAll(plain));
  }

  /**
   The question bytes differ from the reprinted name only in letter case exactly when the name
   part of the message holds no byte with the top bit set.
   */
  lemma ReprintUpToCaseIffAscii(m: seq<byte>)
    requires Parse(m).Some?
    ensures var q := Parse(m).value;
            var section := m[HEADER..q.questionEnd - 4];
            Lower(section) == NameBytes(q.name) <==> IsAscii(section)
  {
    hide Parse, NameBytes, Lower, Ascii, IsAscii, Legal;
    ReprintGivesQuestion(m);
    SameLowerIffAscii(m[HEADER..Parse(m).value.questionEnd - 4]);
  }

  lemma SameLowerIffAscii(s: seq<byte>)
    ensures Lower(s) == Lower(Ascii(s)) <==> IsAscii(s)
  {
    if IsAscii(s) {
      assert Ascii(s) == s;
    } else {
      var k :| 0 <= k < |s| && s[k] >= 128;
      assert Lower(s)[k] == s[k];
      assert Lower(Ascii(s))[k] < 128;
    }
  }

  /** A message whose label byte 0xE1 is taken for the letter `a`. */
  lemma TopBitIsDropped()
    ensures var m := Put16(7) + [0, 0, 0, 1, 0, 0, 0, 0, 0, 0] + [1, 0xE1, 0] + Put16(1) + [0, 1];
            Parse(m) == Some(Query([97], 1, 19, false)) && m[HEADER..15] == [1, 0xE1, 0] && NameBytes([97]) == [1, 97, 0]
  {
    var m := Put16(7) + [0, 0, 0, 1, 0, 0, 0, 0, 0, 0] + [1, 0xE1, 0] + Put16(1) + [0, 1];
    var l: seq<byte> := [0xE1];
    assert Split(l) == [l] by { SplitOfLabel(l, []); }
    assert LabelsBytes([l]) == LabelBytes(l) + LabelsBytes([]);
    assert m == Question(l, 1, 7);
    assert Ascii(l) == [97];
    ParseOfQuestion(l, 1, 7);
    assert Lower([97]) == [97];
    var a: seq<byte> := [97];
    SplitOfLabel(a, []);
    assert LabelsBytes([a]) == LabelBytes(a) + LabelsBytes([]);
  }

  // ---------------------------------------------------------------- the parser itself

  lemma PrefixedSteps(labels: seq<seq<byte>>, l: seq<byte>, r: Option<Labels>)
    ensures Prefixed([], r) == r
    ensures Prefixed(labels, Prefixed([l], r)) == Prefixed(labels + [l], r)
    ensures r.Some? && r.value.labels == [] ==> Prefixed(labels, r) == Some(Labels(labels, r.value.end))
  {
    if r.Some? {
      assert [] + r.value.labels == r.value.labels;
      assert labels + ([l] + r.value.labels) == labels + [l] + r.value.labels;
      assert labels + [] == labels;
    }
  }

  /** The loop over the labels of the question. */
  method ReadQuestionName(m: seq<byte>) returns (r: Option<Labels>)
    requires |m| >= HEADER
    ensures r == ReadLabels(m, HEADER)
  {
    var offset: nat, labels: seq<seq<byte>> := HEADER, [];
    PrefixedSteps([], [], ReadLabels(m, HEADER));
    while offset < |m|
      invariant HEADER <= offset <= |m|
      invariant ReadLabels(m, HEADER) == Prefixed(labels, ReadLabels(m, offset))
      decreases |m| - offset
    {
      var size := m[offset];
      PrefixedSteps(labels, [], ReadLabels(m, offset));
      offset := offset + 1;
      if size == 0 {
        return Some(Labels(labels, offset));
      }
      if size > 63 || offset + size > |m| {
        return None;
      }
      var text := m[offset..offset + size];
      if !Readable(text) {
        return None;
      }
      PrefixedSteps(labels, Ascii(text), ReadLabels(m, offset + size));
      labels := labels + [Ascii(text)];
      offset := offset + size;
      if offset - HEADER > 254 {
        return None;
      }
    }
    return None;
  }

  /** The parser, with its loops over the labels and over the OPT options. */
  method ParseQuery(m: seq<byte>) returns (r: Option<Query>)
    ensures r == Parse(m)
  {
    if |m| < MIN_QUERY || |m| > MAX_MESSAGE {
      return None;
    }
    if !QueryFlags(m) || !QueryCounts(m) {
      return None;
    }
    var found := ReadQuestionName(m);
    if found.None? {
      return None;
    }
    var labels, offset := found.value.labels, found.value.end;
    if labels == [] || offset - HEADER > MAX_WIRE || offset + 4 > |m| || U16(m, offset + 2) != 1 {
      return None;
    }
    var questionEnd := offset + 4;
    if U16(m, 10) == 0 {
      if questionEnd != |m| {
        return None;
      }
    } else {
      var opt := ParseOpt(m, questionEnd);
      if !opt {
        return None;
      }
    }
    return Some(Query(Lower(Join(labels)), U16(m, questionEnd - 4), questionEnd, m[2] % 2 == 1));
  }

  method ParseOpt(m: seq<byte>, at: nat) returns (ok: bool)
    ensures ok == OptFollows(m, at)
  {
    if at + 11 > |m| || m[at] != 0 || U16(m, at + 1) != 41 || m[at + 6] != 0 || m[at + 5] != 0 {
      return false;
    }
    var length := U16(m, at + 9);
    var offset := at + 11;
    if offset + length != |m| {
      return false;
    }
    var end := offset + length;
    while offset < end
      invariant offset <= end == |m|
      invariant OptionsFill(m, at + 11, end) == OptionsFill(m, offset, end)
      decreases end - offset
    {
      if offset + 4 > end {
        return false;
      }
      var size := U16(m, offset + 2);
      offset := offset + 4 + size;
      if offset > end {
        return false;
      }
    }
    return true;
  }

  // ---------------------------------------------------------------- callback names

  datatype Identity = Identity(leaseId: seq<byte>, signature: seq<byte>)

  predicate HexText(s: seq<byte>) {
    |s| == 32 && forall k | 0 <= k < 32 :: 48 <= s[k] <= 57 || 97 <= s[k] <= 102
  }

  /** `oastDnsIdentity`: two labels of 32 lower-case hex digits below the zone. */
  function IdentityOf(name: seq<byte>, zone: seq<byte>): Option<Identity> {
    var suffix := [DOT] + Lower(zone);
    if |name| != 65 + |suffix| || name[65..] != suffix || name[32] != DOT then None
    else
      var id, signature := name[..32], name[33..65];
      if HexText(id) && HexText(signature) then Some(Identity(id, signature)) else None
  }

  /** The name a lease is issued under. */
  function CallbackName(id: Identity, zone: seq<byte>): seq<byte> {
    id.leaseId + [DOT] + id.signature + [DOT] + zone
  }

  lemma IdentityOfCallback(id: Identity, zone: seq<byte>)
    requires HexText(id.leaseId) && HexText(id.signature) && Lower(zone) == zone
    ensures IdentityOf(CallbackName(id, zone), zone) == Some(id)
  {
    var name := CallbackName(id, zone);
    assert name[..32] == id.leaseId && name[33..65] == id.signature && name[65..] == [DOT] + zone;
  }

  /** An identity is read from a name if and only if the name is that identity's callback name. */
  lemma IdentityIsExact(name: seq<byte>, zone: seq<byte>, id: Identity)
    requires Lower(zone) == zone
    ensures IdentityOf(name, zone) == Some(id) <==> HexText(id.leaseId) && HexText(id.signature) && name == CallbackName(id, zone)
  {
    if HexText(id.leaseId) && HexText(id.signature) {
      IdentityOfCallback(id, zone);
    }
    if |name| >= 65 {
      assert name == name[..32] + [name[32]] + name[33..65] + name[65..];
    }
  }

  lemma HexReadable(s: seq<byte>)
    requires HexText(s)
    ensures Readable(s) && Dotless(s) && Lower(s) == s && IsAscii(s)
  {
    assert Ascii(s) == s;
  }

  lemma CallbackSplit(id: Identity, zone: seq<byte>)
    requires HexText(id.leaseId) && HexText(id.signature)
    ensures Split(CallbackName(id, zone)) == [id.leaseId, id.signature] + Split(zone)
  {
    HexReadable(id.leaseId);
    HexReadable(id.signature);
    SplitOfLabel(id.signature, zone);
    SplitOfLabel(id.leaseId, id.signature + [DOT] + zone);
    assert CallbackName(id, zone) == id.leaseId + [DOT] + (id.signature + [DOT] + zone);
  }

  lemma CallbackIsReadable(id: Identity, zone: seq<byte>, sent: seq<byte>)
    requires HexText(id.leaseId) && HexText(id.signature) && AllReadable(Split(zone))
    requires Lower(sent) == CallbackName(id, zone)
    ensures AllReadable(Split(sent))
  {
    CallbackSplit(id, zone);
    HexReadable(id.leaseId);
    HexReadable(id.signature);
    SplitOfLower(sent);
    var ls := [id.leaseId, id.signature] + Split(zone);
    assert AllReadable(ls);
    forall k | 0 <= k < |Split(sent)| ensures Readable(Split(sent)[k]) {
      assert ls[k] == Lower(Split(sent)[k]);
      LowerReadable(Split(sent)[k]);
    }
  }

  /**
   A callback query recovers its lease identity, whatever the letter case a resolver sends the
   name in, exactly when the zone leaves room for the two labels: at most 187 bytes.
   */
  lemma CallbackRoundTrip(id: Identity, zone: seq<byte>, sent: seq<byte>, qtype: nat, queryId: nat)
    requires HexText(id.leaseId) && HexText(id.signature)
    requires AllReadable(Split(zone)) && Lower(zone) == zone
    requires IsAscii(sent) && Lower(sent) == CallbackName(id, zone) && qtype < 65536 && queryId < 65536
    ensures var parsed := Parse(Question(sent, qtype, queryId));
            && (parsed.Some? <==> |zone| <= 187)
            && (parsed.Some? ==> IdentityOf(parsed.value.name, zone) == Some(id))
  {
    CallbackIsReadable(id, zone, sent);
    CallbackLength(id, zone, sent);
    ParsesExactlyLegal(sent, qtype, queryId);
    if Legal(sent) {
      ParseOfQuestion(sent, qtype, queryId);
      SentIdentity(id, zone, sent);
    }
  }

  lemma SentIdentity(id: Identity, zone: seq<byte>, sent: seq<byte>)
    requires HexText(id.leaseId) && HexText(id.signature) && Lower(zone) == zone
    requires IsAscii(sent) && Lower(sent) == CallbackName(id, zone)
    ensures IdentityOf(Lower(Ascii(sent)), zone) == Some(id)
  {
    assert Ascii(sent) == sent;
    IdentityOfCallback(id, zone);
  }

  lemma CallbackLength(id: Identity, zone: seq<byte>, sent: seq<byte>)
    requires HexText(id.leaseId) && HexText(id.signature) && Lower(sent) == CallbackName(id, zone)
    ensures |sent| == 66 + |zone|
  {
  }

  lemma LowerReadable(l: seq<byte>)
    requires Readable(Lower(l))
    ensures Readable(l)
  {
    forall k | 0 <= k < |l| ensures LabelChar(Ascii(l)[k]) {
      assert LabelChar(Ascii(Lower(l))[k]);
    }
  }

  lemma {:induction false} SplitOfLower(s: seq<byte>)
    ensures Split(Lower(s)) == LowerAll(Split(s))
    decreases |s|
  {
    if s == [] {
      assert Lower(s) == [];
    } else {
      SplitOfLower(s[1..]);
      assert Lower(s)[1..] == Lower(s[1..]);
      LowerStep(s[0], Split(s[1..]));
    }
  }

  lemma LowerStep(c: byte, rest: seq<seq<byte>>)
    requires rest != []
    ensures LowerAll([[]] + rest) == [[]] + LowerAll(rest)
    ensures LowerAll([[c] + rest[0]] + rest[1..]) == [[LowerChar(c)] + LowerAll(rest)[0]] + LowerAll(rest)[1..]
  {
    assert Lower([]) == [];
    assert Lower([c] + rest[0]) == [LowerChar(c)] + Lower(rest[0]);
  }
}
