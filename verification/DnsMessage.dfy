/**
 The queries that `parseOastDnsQuery` accepts, as messages: what is accepted is exactly what this
 encoding can produce, with or without an OPT record, and is parsed into what was encoded.
 */
module DnsMessage {
  import opened Common
  import opened Bytes
  import opened DnsName
  import opened DnsQuery

  datatype EdnsOption = EdnsOption(code: nat, data: seq<byte>)

  /** An OPT record of version 0 (section 6.1.2 of RFC 6891). */
  datatype Edns = Edns(udpSize: nat, flags: nat, options: seq<EdnsOption>)

  predicate OptionsFit(os: seq<EdnsOption>) {
    forall k | 0 <= k < |os| :: os[k].code < 65536 && |os[k].data| < 65536
  }

  function OptionBytes(o: EdnsOption): (s: seq<byte>)
    requires o.code < 65536 && |o.data| < 65536
    ensures |s| == 4 + |o.data|
  {
    Put16(o.code) + (Put16(|o.data|) + o.data)
  }

  function OptionsBytes(os: seq<EdnsOption>): seq<byte>
    requires OptionsFit(os)
    decreases |os|
  {
    if os == [] then [] else OptionBytes(os[0]) + OptionsBytes(os[1..])
  }

  predicate EdnsFits(e: Edns) {
    e.udpSize < 65536 && e.flags < 65536 && OptionsFit(e.options) && |OptionsBytes(e.options)| < 65536
  }

  /** Root name, type 41, payload size, extended code and version zero, flags, options. */
  function OptBytes(e: Edns): seq<byte>
    requires EdnsFits(e)
  {
    [0, 0, 41] + Put16(e.udpSize) + [0, 0] + Put16(e.flags) + Put16(|OptionsBytes(e.options)|) + OptionsBytes(e.options)
  }

  datatype Content = Content(id: nat, high: byte, low: byte, labels: seq<seq<byte>>, qtype: nat, edns: Option<Edns>)

  /** No response, opcode 0, no reserved bit, no code; at least one label; the sizes of the format. */
  predicate Proper(c: Content) {
    && c.id < 65536 && c.qtype < 65536 && c.high < 8 && c.low % 16 == 0 && c.low as int / 64 % 2 == 0
    && c.labels != [] && AllReadable(c.labels) && |WireName(c.labels)| <= 255
    && (c.edns.Some? ==> EdnsFits(c.edns.value))
  }

  function Tail(c: Content): seq<byte>
    requires c.edns.Some? ==> EdnsFits(c.edns.value)
  {
    match c.edns
    case None => []
    case Some(e) => OptBytes(e)
  }

  function Front(c: Content): (h: seq<byte>)
    requires c.id < 65536
    ensures |h| == HEADER
  {
    Put16(c.id) + [c.high, c.low, 0, 1, 0, 0, 0, 0] + Put16(if c.edns.Some? then 1 else 0)
  }

  function Message(c: Content): seq<byte>
    requires Proper(c)
  {
    Front(c) + (WireName(c.labels) + (Put16(c.qtype) + ([0, 1] + Tail(c))))
  }

  // ---------------------------------------------------------------- encoded messages are parsed

  lemma {:induction false} OptionsAreRead(m: seq<byte>, at: nat, os: seq<EdnsOption>)
    requires OptionsFit(os) && At(m, at, OptionsBytes(os)) && at + |OptionsBytes(os)| == |m|
    ensures OptionsFill(m, at, |m|)
    decreases |os|
  {
    if os != [] {
      var o, rest := os[0], OptionsBytes(os[1..]);
      AtSplit(m, at, OptionBytes(o), rest);
      AtSplit(m, at, Put16(o.code), Put16(|o.data|) + o.data);
      AtSplit(m, at + 2, Put16(|o.data|), o.data);
      U16At(m, at + 2, |o.data|);
      OptionsAreRead(m, at + 4 + |o.data|, os[1..]);
    }
  }

  function OptFront(udpSize: nat, flags: nat): (s: seq<byte>)
    requires udpSize < 65536 && flags < 65536
    ensures |s| == 9
  {
    [0, 0, 41] + Put16(udpSize) + [0, 0] + Put16(flags)
  }

  lemma OptFrontReads(m: seq<byte>, at: nat, udpSize: nat, flags: nat)
    requires udpSize < 65536 && flags < 65536 && At(m, at, OptFront(udpSize, flags))
    ensures at + 9 <= |m| && m[at] == 0 && U16(m, at + 1) == 41 && m[at + 5] == 0 && m[at + 6] == 0
  {
    var f := OptFront(udpSize, flags);
    AtIndex(m, at, f, 0);
    AtIndex(m, at, f, 1);
    AtIndex(m, at, f, 2);
    AtIndex(m, at, f, 5);
    AtIndex(m, at, f, 6);
  }

  lemma OptParts(e: Edns)
    requires EdnsFits(e)
    ensures var options := OptionsBytes(e.options);
            OptBytes(e) == OptFront(e.udpSize, e.flags) + (Put16(|options|) + options)
  {
    hide OptionsBytes, Put16;
  }

  lemma OptIsRead(m: seq<byte>, at: nat, e: Edns)
    requires EdnsFits(e) && At(m, at, OptBytes(e)) && at + |OptBytes(e)| == |m|
    ensures OptFollows(m, at)
  {
    hide OptionsFill, OptionsFit, OptionsBytes, OptBytes, OptFront, At, U16;
    var options := OptionsBytes(e.options);
    OptParts(e);
    AtSplit(m, at, OptFront(e.udpSize, e.flags), Put16(|options|) + options);
    AtSplit(m, at + 9, Put16(|options|), options);
    U16At(m, at + 9, |options|);
    OptFrontReads(m, at, e.udpSize, e.flags);
    OptionsAreRead(m, at + 11, e.options);
  }

  lemma FrontStands(m: seq<byte>, c: Content)
    requires Proper(c) && At(m, 0, Front(c))
    ensures m[2] == c.high && m[3] == c.low && QueryFlags(m) && QueryCounts(m) && (U16(m, 10) == 0 <==> c.edns.None?)
  {
    var h := Front(c);
    forall k | 0 <= k < HEADER ensures m[k] == h[k] {
      AtIndex(m, 0, h, k);
    }
  }

  /** Every proper content of at most 4096 bytes is accepted, and read back. */
  lemma MessageIsParsed(c: Content)
    requires Proper(c) && |Message(c)| <= 4096
    ensures Parse(Message(c)) ==
            Some(Query(Lower(Ascii(Join(c.labels))), c.qtype, HEADER + |WireName(c.labels)| + 4, c.high % 2 == 1))
  {
    hide Parse, QueryFlags, QueryCounts, OptFollows, ReadLabels, WireName, Readable, Lower, Ascii, Join, Front, OptBytes, EdnsFits, U16, AllReadable;
    var m := Message(c);
    var name := WireName(c.labels);
    var end := HEADER + |name|;
    assert At(m, 0, Front(c) + (name + (Put16(c.qtype) + ([0, 1] + Tail(c)))));
    AtSplit(m, 0, Front(c), name + (Put16(c.qtype) + ([0, 1] + Tail(c))));
    AtSplit(m, HEADER, name, Put16(c.qtype) + ([0, 1] + Tail(c)));
    AtSplit(m, end, Put16(c.qtype), [0, 1] + Tail(c));
    AtSplit(m, end + 2, [0, 1], Tail(c));
    FrontStands(m, c);
    ReadsPrintedLabels(m, HEADER, c.labels);
    AsciiOfJoin(c.labels);
    U16At(m, end, c.qtype);
    OneIsOne();
    U16At(m, end + 2, 1);
    NameIsLong(c.labels);
    assert AsciiAll(c.labels) != [];
    if c.edns.Some? {
      OptIsRead(m, end + 4, c.edns.value);
    }
    ParseIs(m, AsciiAll(c.labels), end);
    LowerAsciiIs(c.labels);
  }

  lemma LowerAsciiIs(ls: seq<seq<byte>>)
    ensures Lower(Join(AsciiAll(ls))) == Lower(Ascii(Join(ls)))
  {
    AsciiOfJoin(ls);
  }

  lemma ParseIs(m: seq<byte>, labels: seq<seq<byte>>, end: nat)
    requires 17 <= |m| <= 4096 && QueryFlags(m) && QueryCounts(m) && labels != [] && ReadLabels(m, HEADER) == Some(Labels(labels, end))
    requires end <= HEADER + 255 && end + 4 <= |m| && U16(m, end + 2) == 1
    requires if U16(m, 10) == 0 then end + 4 == |m| else OptFollows(m, end + 4)
    ensures Parse(m) == Some(Query(Lower(Join(labels)), U16(m, end), end + 4, m[2] % 2 == 1))
  {
    hide QueryFlags, QueryCounts, OptFollows, ReadLabels, Lower, Join, U16;
  }

  lemma ParsedSurroundings(m: seq<byte>)
    requires Parse(m).Some?
    ensures |m| >= 17 && |m| <= 4096 && QueryFlags(m) && QueryCounts(m)
    ensures var q := Parse(m).value.questionEnd; if U16(m, 10) == 0 then q == |m| else OptFollows(m, q)
  {
    hide QueryFlags, QueryCounts, OptFollows, ReadLabels, Lower, Join, U16;
  }

  lemma OneIsOne()
    ensures Put16(1) == [0, 1]
  {
  }

  lemma NameIsLong(ls: seq<seq<byte>>)
    requires ls != [] && AllReadable(ls)
    ensures |WireName(ls)| >= 3
  {
    assert Readable(ls[0]);
  }

  // ---------------------------------------------------------------- accepted messages are encoded

  lemma {:induction false} OptionsThere(m: seq<byte>, at: nat) returns (os: seq<EdnsOption>)
    requires at <= |m| && |m| < 65536 && OptionsFill(m, at, |m|)
    ensures OptionsFit(os) && OptionsBytes(os) == m[at..]
    decreases |m| - at
  {
    if at == |m| {
      os := [];
    } else {
      var size := U16(m, at + 2);
      var next := at + 4 + size;
      FillBounds(m, next);
      var more := OptionsThere(m, next);
      var o := EdnsOption(U16(m, at), m[at + 4..next]);
      PutBack(m, at);
      PutBack(m, at + 2);
      assert m[at..] == m[at..at + 2] + (m[at + 2..at + 4] + m[at + 4..next]) + m[next..];
      os := [o] + more;
      assert os[1..] == more;
    }
  }

  lemma FillBounds(m: seq<byte>, at: nat)
    requires OptionsFill(m, at, |m|)
    ensures at <= |m|
  {
  }

  lemma OptThere(m: seq<byte>, at: nat) returns (e: Edns)
    requires |m| < 65536 && OptFollows(m, at)
    ensures EdnsFits(e) && OptBytes(e) == m[at..]
  {
    hide OptionsFill, OptionsBytes, OptionsFit;
    var os := OptionsThere(m, at + 11);
    e := Edns(U16(m, at + 3), U16(m, at + 7), os);
    PutBack(m, at + 3);
    PutBack(m, at + 7);
    PutBack(m, at + 9);
    TypeIsOpt(m, at);
    assert m[at..] == m[at..at + 3] + m[at + 3..at + 5] + m[at + 5..at + 7] + m[at + 7..at + 9] + m[at + 9..at + 11] + m[at + 11..];
  }

  lemma TypeIsOpt(m: seq<byte>, at: nat)
    requires at + 7 <= |m| && m[at] == 0 && U16(m, at + 1) == 41 && m[at + 5] == 0 && m[at + 6] == 0
    ensures m[at..at + 3] == [0, 0, 41] && m[at + 5..at + 7] == [0, 0]
  {
  }

  lemma FrontThere(m: seq<byte>)
    requires |m| >= HEADER && QueryFlags(m) && QueryCounts(m)
    ensures m[2] < 8 && m[3] % 16 == 0 && m[3] as int / 64 % 2 == 0
    ensures m[..HEADER] == Put16(U16(m, 0)) + [m[2], m[3], 0, 1, 0, 0, 0, 0] + Put16(U16(m, 10))
  {
    PutBack(m, 0);
    PutBack(m, 4);
    PutBack(m, 10);
    assert Put16(1) == [0, 1];
    assert m[4] == 0 && m[5] == 1;
  }

  lemma Glued(m: seq<byte>, a: nat, b: nat)
    requires HEADER <= a <= b <= |m| && a + 4 == b
    ensures m == m[..HEADER] + (m[HEADER..a] + (m[a..a + 2] + (m[a + 2..b] + m[b..])))
  {
  }

  /** Every accepted message is the encoding of a proper content. */
  lemma ParsedIsMessage(m: seq<byte>) returns (c: Content)
    requires Parse(m).Some?
    ensures Proper(c) && Message(c) == m && |m| <= 4096
  {
    hide Parse, QueryFlags, QueryCounts, OptFollows, ReadLabels, RawLabels, WireName, Readable, Lower, Ascii, Join, OptBytes, EdnsFits, AllReadable, U16, At;
    ParsedParts(m);
    ParsedSurroundings(m);
    ReadLabelsAreThere(m, HEADER);
    var raw := RawLabels(m, HEADER);
    var end := ReadLabels(m, HEADER).value.end;
    assert raw != [] by { assert AsciiAll(raw) != []; }
    assert WireName(raw) == m[HEADER..end] by { NameStands(m, HEADER, raw); }
    var edns := None;
    FrontThere(m);
    CountIsSmall(m);
    PutBack(m, end);
    PutBack(m, end + 2);
    OneIsOne();
    if U16(m, 10) != 0 {
      var e := OptThere(m, end + 4);
      edns := Some(e);
    }
    c := Content(U16(m, 0), m[2], m[3], raw, U16(m, end), edns);
    assert edns.None? ==> m[end + 4..] == [];
    PiecesAreMessage(c, m, end);
  }

  lemma PiecesAreMessage(c: Content, m: seq<byte>, end: nat)
    requires Proper(c) && HEADER <= end && end + 4 <= |m|
    requires Front(c) == m[..HEADER] && WireName(c.labels) == m[HEADER..end] && Put16(c.qtype) == m[end..end + 2]
    requires m[end + 2..end + 4] == [0, 1] && Tail(c) == m[end + 4..]
    ensures Message(c) == m
  {
    hide Proper, Front, WireName, Put16, Tail;
    Glued(m, end, end + 4);
  }

  lemma NameStands(m: seq<byte>, at: nat, raw: seq<seq<byte>>)
    requires At(m, at, WireName(raw))
    ensures WireName(raw) == m[at..at + |WireName(raw)|]
  {
  }

  lemma CountIsSmall(m: seq<byte>)
    requires |m| >= HEADER && QueryCounts(m)
    ensures U16(m, 10) <= 1
  {
  }

  /** A message is accepted if and only if it encodes a proper content and is at most 4096 bytes long. */
  lemma AcceptedIff(m: seq<byte>)
    ensures Parse(m).Some? <==> |m| <= 4096 && exists c :: Proper(c) && Message(c) == m
  {
    hide Parse, Proper, Message;
    if Parse(m).Some? {
      var c := ParsedIsMessage(m);
      assert Proper(c) && Message(c) == m;
    }
    if c :| |m| <= 4096 && Proper(c) && Message(c) == m {
      MessageIsParsed(c);
    }
  }
}
