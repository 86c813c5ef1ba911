/**
 The client's reading of an answer: `readName` with compression pointers (section 4.1.4 of
 RFC 1035) and `inspectOastDnsAnswer`.
 */
module DnsReader {
  import opened Common
  import opened Bytes
  import opened DnsName
  import opened DnsQuery

  const MAX_JUMPS: nat := 16
  const MAX_TEXT: nat := 253
  const MAX_RECORDS: nat := 32

  // ---------------------------------------------------------------- names

  datatype NameAt = NameAt(name: seq<byte>, end: nat)

  function Pointer(m: seq<byte>, at: nat): nat
    requires at + 1 < |m| && m[at] >= 192
  {
    var hi: int, lo: int := m[at], m[at + 1];
    (hi - 192) * 256 + lo
  }

  /**
   What stands at `at` according to the RFC: labels up to a terminator or a pointer, and after a
   pointer whatever stands at its target, which lies before it. At most `hops` pointers are
   followed. The labels are ASCII-decoded.
   */
  function Expand(m: seq<byte>, at: nat, hops: nat): Option<seq<seq<byte>>>
    decreases hops, |m| - at
  {
    if at >= |m| then None
    else
      var size := m[at];
      if size == 0 then Some([])
      else if size >= 192 then
        if at + 1 >= |m| || hops == 0 || Pointer(m, at) >= at then None else Expand(m, Pointer(m, at), hops - 1)
      else if size > 63 || at + 1 + size > |m| || !Readable(m[at + 1..at + 1 + size]) then None
      else OnTop([Ascii(m[at + 1..at + 1 + size])], Expand(m, at + 1 + size, hops))
  }

  function OnTop(labels: seq<seq<byte>>, r: Option<seq<seq<byte>>>): Option<seq<seq<byte>>> {
    match r
    case None => None
    case Some(more) => Some(labels + more)
  }

  /** The offset after the name's own bytes: after its terminator or its first pointer. */
  function NameEnd(m: seq<byte>, at: nat): nat
    decreases |m| - at
  {
    if at >= |m| || m[at] == 0 then at + 1 else if m[at] >= 192 then at + 2 else NameEnd(m, at + 1 + m[at])
  }

  /** The name at `at`: it expands within 16 jumps and its text is at most 253 bytes. */
  function NameRead(m: seq<byte>, at: nat): Option<NameAt> {
    match Expand(m, at, MAX_JUMPS)
    case None => None
    case Some(labels) => if |Join(labels)| > MAX_TEXT then None else Some(NameAt(Lower(Join(labels)), NameEnd(m, at)))
  }

  lemma {:induction false} JoinGrows(a: seq<seq<byte>>, b: seq<seq<byte>>)
    ensures |Join(a)| <= |Join(a + b)|
    decreases |a|
  {
    if a == [] {
      assert a + b == b;
    } else if b == [] {
      assert a + b == a;
    } else {
      JoinGrows(a[1..], b);
      assert (a + b)[1..] == a[1..] + b;
    }
  }

  lemma {:induction false} NameEndBounds(m: seq<byte>, at: nat, hops: nat)
    requires Expand(m, at, hops).Some?
    ensures at < NameEnd(m, at) <= |m|
    decreases |m| - at
  {
    if m[at] != 0 && m[at] < 192 {
      NameEndBounds(m, at + 1 + m[at], hops);
    }
  }

  /** A name that is read ends strictly after its start and within the message, and is at most 253 bytes long. */
  lemma NameReadBounds(m: seq<byte>, at: nat)
    requires NameRead(m, at).Some?
    ensures at < NameRead(m, at).value.end <= |m| && |NameRead(m, at).value.name| <= MAX_TEXT
  {
    NameEndBounds(m, at, MAX_JUMPS);
  }

  /** `done` labels read so far, the rest still to be expanded from `offset`. */
  ghost predicate Reading(m: seq<byte>, start: nat, offset: nat, end: nat, jumps: nat, labels: seq<seq<byte>>) {
    && jumps <= MAX_JUMPS
    && Expand(m, start, MAX_JUMPS) == OnTop(labels, Expand(m, offset, MAX_JUMPS - jumps))
    && NameEnd(m, start) == (if end != 0 then end else NameEnd(m, offset))
    && |Join(labels)| <= MAX_TEXT
  }

  lemma OnTopSteps(labels: seq<seq<byte>>, l: seq<byte>, r: Option<seq<seq<byte>>>)
    ensures OnTop([], r) == r
    ensures OnTop(labels, OnTop([l], r)) == OnTop(labels + [l], r)
    ensures r == Some([]) ==> OnTop(labels, r) == Some(labels)
  {
    if r.Some? {
      assert [] + r.value == r.value;
      assert labels + ([l] + r.value) == labels + [l] + r.value;
      assert labels + [] == labels;
    }
  }

  lemma TooLong(labels: seq<seq<byte>>, r: Option<seq<seq<byte>>>)
    requires |Join(labels)| > MAX_TEXT && OnTop(labels, r).Some?
    ensures |Join(OnTop(labels, r).value)| > MAX_TEXT
  {
    JoinGrows(labels, r.value);
  }

  /** `readName`: one loop, whose jumps are limited and always go back. */
  method ReadName(m: seq<byte>, start: nat) returns (r: Option<NameAt>)
    ensures r == NameRead(m, start)
  {
    hide Readable, Ascii, Lower, Pointer;
    var offset: nat, end: nat, jumps: nat, labels: seq<seq<byte>> := start, 0, 0, [];
    OnTopSteps([], [], Expand(m, start, MAX_JUMPS));
    while offset < |m|
      invariant Reading(m, start, offset, end, jumps, labels)
      decreases MAX_JUMPS - jumps, |m| - offset
    {
      var size := m[offset];
      OnTopSteps(labels, [], Expand(m, offset, MAX_JUMPS - jumps));
      if size == 0 {
        return Some(NameAt(Lower(Join(labels)), if end != 0 then end else offset + 1));
      }
      if size >= 192 {
        if offset + 1 >= |m| || jumps + 1 > MAX_JUMPS {
          return None;
        }
        var pointer := Pointer(m, offset);
        if pointer >= offset {
          return None;
        }
        if end == 0 {
          end := offset + 2;
        }
        jumps, offset := jumps + 1, pointer;
      } else {
        if size > 63 || offset + 1 + size > |m| {
          return None;
        }
        var text := m[offset + 1..offset + 1 + size];
        if !Readable(text) {
          return None;
        }
        OnTopSteps(labels, Ascii(text), Expand(m, offset + 1 + size, MAX_JUMPS - jumps));
        labels := labels + [Ascii(text)];
        offset := offset + 1 + size;
        if |Join(labels)| > MAX_TEXT {
          if Expand(m, start, MAX_JUMPS).Some? {
            TooLong(labels, Expand(m, offset, MAX_JUMPS - jumps));
          }
          return None;
        }
      }
    }
    return None;
  }

  function PointerBytes(target: nat): seq<byte>
    requires target < 16384
  {
    [192 + target / 256, target % 256]
  }

  lemma PointerStands(m: seq<byte>, at: nat, target: nat)
    requires target < 16384 && At(m, at, PointerBytes(target))
    ensures m[at] >= 192 && Pointer(m, at) == target
  {
    AtIndex(m, at, PointerBytes(target), 0);
    AtIndex(m, at, PointerBytes(target), 1);
  }

  lemma LabelExpands(m: seq<byte>, at: nat, l: seq<byte>, hops: nat)
    requires Readable(l) && at + 1 + |l| <= |m| && m[at] == |l| && m[at + 1..at + 1 + |l|] == l
    ensures Expand(m, at, hops) == OnTop([Ascii(l)], Expand(m, at + 1 + |l|, hops))
    ensures NameEnd(m, at) == NameEnd(m, at + 1 + |l|)
  {
  }

  /** A label sequence followed by a pointer denotes those labels and then the pointed-to name. */
  lemma {:induction false} CompressedName(m: seq<byte>, at: nat, ls: seq<seq<byte>>, target: nat, hops: nat)
    requires AllReadable(ls) && target < at && target < 16384 && hops >= 1
    requires At(m, at, LabelsBytes(ls) + PointerBytes(target))
    ensures Expand(m, at, hops) == OnTop(AsciiAll(ls), Expand(m, target, hops - 1))
    ensures NameEnd(m, at) == at + |LabelsBytes(ls)| + 2
    decreases |ls|
  {
    var tail := PointerBytes(target);
    if ls == [] {
      assert LabelsBytes(ls) + tail == tail;
      PointerStands(m, at, target);
      OnTopSteps([], [], Expand(m, target, hops - 1));
    } else {
      var l := ls[0];
      assert LabelsBytes(ls) + tail == LabelBytes(l) + (LabelsBytes(ls[1..]) + tail);
      assert |LabelsBytes(ls)| == 1 + |l| + |LabelsBytes(ls[1..])|;
      hide Expand, NameEnd, At, Readable, Ascii, PointerBytes, LabelsBytes, OnTop;
      FirstIsReadable(ls);
      LabelStands(m, at, l, LabelsBytes(ls[1..]) + tail);
      CompressedName(m, at + 1 + |l|, ls[1..], target, hops);
      LabelExpands(m, at, l, hops);
      assert AsciiAll(ls) == [Ascii(l)] + AsciiAll(ls[1..]);
      OnTopOnTop([Ascii(l)], AsciiAll(ls[1..]), Expand(m, target, hops - 1));
    }
  }

  lemma OnTopOnTop(a: seq<seq<byte>>, b: seq<seq<byte>>, r: Option<seq<seq<byte>>>)
    ensures OnTop(a, OnTop(b, r)) == OnTop(a + b, r)
  {
    if r.Some? {
      assert a + (b + r.value) == a + b + r.value;
    }
  }

  /** An uncompressed name denotes its own labels. */
  lemma {:induction false} PlainName(m: seq<byte>, at: nat, ls: seq<seq<byte>>, hops: nat)
    requires AllReadable(ls) && At(m, at, WireName(ls))
    ensures Expand(m, at, hops) == Some(AsciiAll(ls)) && NameEnd(m, at) == at + |WireName(ls)|
    decreases |ls|
  {
    if ls == [] {
      AtIndex(m, at, WireName(ls), 0);
    } else {
      var l := ls[0];
      assert WireName(ls) == LabelBytes(l) + WireName(ls[1..]);
      LabelStands(m, at, l, WireName(ls[1..]));
      PlainName(m, at + 1 + |l|, ls[1..], hops);
      assert AsciiAll(ls) == [Ascii(l)] + AsciiAll(ls[1..]);
    }
  }

  /** A chain of `n` pointers, each before the last, that ends at a root name. */
  predicate PointerChain(m: seq<byte>, at: nat, n: nat)
    decreases n
  {
    at < |m| && if n == 0 then m[at] == 0 else m[at] >= 192 && at + 1 < |m| && Pointer(m, at) < at && PointerChain(m, Pointer(m, at), n - 1)
  }

  lemma {:induction false} ChainExpands(m: seq<byte>, at: nat, n: nat, hops: nat)
    requires PointerChain(m, at, n)
    ensures Expand(m, at, hops) == if n <= hops then Some([]) else None
    decreases n
  {
    if n > 0 && hops > 0 { ChainExpands(m, Pointer(m, at), n - 1, hops - 1); }
  }

  /** A chain of pointers is followed if and only if it has at most 16. */
  lemma ChainIsReadIff(m: seq<byte>, at: nat, n: nat)
    requires PointerChain(m, at, n)
    ensures NameRead(m, at).Some? <==> n <= 16
    ensures n <= 16 ==> NameRead(m, at) == Some(NameAt([], if n == 0 then at + 1 else at + 2))
  {
    ChainExpands(m, at, n, 16);
  }

  /** Reading back a printed name. */
  lemma ReadsNameBytes(m: seq<byte>, at: nat, name: seq<byte>)
    requires Legal(name) && At(m, at, NameBytes(name))
    ensures NameRead(m, at) == Some(NameAt(Lower(Ascii(name)), at + |NameBytes(name)|))
  {
    PlainName(m, at, Split(name), MAX_JUMPS);
    JoinOfSplit(name);
    AsciiOfJoin(Split(name));
  }

  // ---------------------------------------------------------------- answers

  datatype Answer = Answer(
    authoritative: bool, recursionAvailable: bool, truncated: bool, rcode: nat,
    nameservers: seq<seq<byte>>, answerTypes: seq<nat>)

  /** One record: its type, the extent of its data, and the name in it if it is an NS answer. */
  datatype Record = Record(rtype: nat, dataAt: nat, end: nat)

  /** The record that starts at `at`: owner name, ten fixed bytes, class IN, data. */
  function RecordAt(m: seq<byte>, at: nat): Option<Record> {
    match NameRead(m, at)
    case None => None
    case Some(owner) =>
      if owner.end + 10 > |m| then None
      else
        var dataAt := owner.end + 10;
        var length := U16(m, owner.end + 8);
        if U16(m, owner.end + 2) != 1 || dataAt + length > |m| then None
        else Some(Record(U16(m, owner.end), dataAt, dataAt + length))
  }

  /** The data of an NS answer is one name and nothing else. */
  function ServerIn(m: seq<byte>, r: Record): Option<seq<byte>> {
    match NameRead(m, r.dataAt)
    case None => None
    case Some(n) => if n.end != r.end then None else Some(n.name)
  }

  datatype Walk = Walk(nameservers: seq<seq<byte>>, answerTypes: seq<nat>, end: nat)

  /** `count` records from `at`, the first `answers` of which are answers. */
  function WalkRecords(m: seq<byte>, at: nat, count: nat, answers: nat): Option<Walk>
    decreases count
  {
    if count == 0 then Some(Walk([], [], at))
    else match RecordAt(m, at)
      case None => None
      case Some(r) =>
        if answers > 0 && r.rtype == 2 && ServerIn(m, r).None? then None
        else match WalkRecords(m, r.end, count - 1, if answers > 0 then answers - 1 else 0)
          case None => None
          case Some(w) =>
            if answers == 0 then Some(w)
            else Some(Walk((if r.rtype == 2 then [ServerIn(m, r).value] else []) + w.nameservers, [r.rtype] + w.answerTypes, w.end))
  }

  /** The checks before the records: same id, a response, one question, the same question bytes. */
  predicate Echoes(m: seq<byte>, q: seq<byte>)
    requires |q| >= HEADER
  {
    && |q| <= |m| <= MAX_MESSAGE && m[..2] == q[..2] && 128 <= m[2] < 136 && U16(m, 4) == 1
    && m[HEADER..|q|] == q[HEADER..]
  }

  /** `inspectOastDnsAnswer` as one expression. */
  function Inspect(m: seq<byte>, q: seq<byte>): Option<Answer>
    requires |q| >= HEADER
  {
    if !Echoes(m, q) then None
    else
      var count := U16(m, 6) + U16(m, 8) + U16(m, 10);
      if count > MAX_RECORDS then None
      else match WalkRecords(m, |q|, count, U16(m, 6))
        case None => None
        case Some(w) =>
          if w.end != |m| then None
          else Some(Answer(m[2] / 4 % 2 == 1, m[3] / 128 % 2 == 1, m[2] / 2 % 2 == 1, m[3] % 16, w.nameservers, w.answerTypes))
  }

  lemma RecordBounds(m: seq<byte>, at: nat)
    requires RecordAt(m, at).Some?
    ensures var r := RecordAt(m, at).value; at + 11 <= r.dataAt <= r.end <= |m|
  {
    NameReadBounds(m, at);
  }

  /** Where the records begin and end: a tiling of `[at, end)`, at least eleven bytes each. */
  ghost predicate Tiles(m: seq<byte>, cuts: seq<nat>, at: nat, end: nat) {
    && |cuts| >= 1 && cuts[0] == at && cuts[|cuts| - 1] == end
    && forall k | 0 <= k < |cuts| - 1 :: cuts[k] + 11 <= cuts[k + 1] && RecordAt(m, cuts[k]).Some? && RecordAt(m, cuts[k]).value.end == cuts[k + 1]
  }

  lemma {:induction false} WalkTiles(m: seq<byte>, at: nat, count: nat, answers: nat) returns (cuts: seq<nat>)
    requires WalkRecords(m, at, count, answers).Some?
    ensures |cuts| == count + 1 && Tiles(m, cuts, at, WalkRecords(m, at, count, answers).value.end)
    decreases count
  {
    if count == 0 {
      cuts := [at];
    } else {
      var r := RecordAt(m, at).value;
      RecordBounds(m, at);
      var more := WalkTiles(m, r.end, count - 1, if answers > 0 then answers - 1 else 0);
      cuts := [at] + more;
    }
  }

  /** An accepted answer is its question followed by exactly the announced records, to its last byte. */
  lemma AcceptedIsConsumed(m: seq<byte>, q: seq<byte>) returns (cuts: seq<nat>)
    requires |q| >= HEADER && Inspect(m, q).Some?
    ensures |cuts| == U16(m, 6) + U16(m, 8) + U16(m, 10) + 1 && |cuts| <= MAX_RECORDS + 1
    ensures Tiles(m, cuts, |q|, |m|) && m[HEADER..|q|] == q[HEADER..]
  {
    cuts := WalkTiles(m, |q|, U16(m, 6) + U16(m, 8) + U16(m, 10), U16(m, 6));
  }

  /** What is reported of an accepted answer makes up its flag bytes: a response, opcode 0, AA, TC, RD, RA, the reserved bits and the code. */
  lemma ReportedFlagsAreTheBytes(m: seq<byte>, q: seq<byte>)
    requires |q| >= HEADER && Inspect(m, q).Some?
    ensures var a := Inspect(m, q).value;
            && |m| >= HEADER && a.rcode < 16
            && 0 <= m[2] as int - 128 - (if a.authoritative then 4 else 0) - (if a.truncated then 2 else 0) <= 1
            && (var reserved := m[3] as int - (if a.recursionAvailable then 128 else 0) - a.rcode; 0 <= reserved < 128 && reserved % 16 == 0)
            && |a.answerTypes| == U16(m, 6)
  {
    hide RecordAt, NameRead, ServerIn;
    Bits(m[2], m[3]);
    TypesOfWalk(m, |q|, U16(m, 6) + U16(m, 8) + U16(m, 10), U16(m, 6));
  }

  lemma Bits(high: byte, low: byte)
    requires 128 <= high < 136
    ensures 0 <= high as int - 128 - high as int / 4 % 2 * 4 - high as int / 2 % 2 * 2 <= 1
    ensures var reserved := low as int - low as int / 128 % 2 * 128 - low as int % 16; 0 <= reserved < 128 && reserved % 16 == 0
  {
  }

  lemma {:induction false} TypesOfWalk(m: seq<byte>, at: nat, count: nat, answers: nat)
    requires WalkRecords(m, at, count, answers).Some? && answers <= count
    ensures |WalkRecords(m, at, count, answers).value.answerTypes| == answers
    decreases count
  {
    hide RecordAt, ServerIn;
    if count > 0 {
      var r := RecordAt(m, at).value;
      TypesOfWalk(m, r.end, count - 1, if answers > 0 then answers - 1 else 0);
    }
  }

  /** The name server records among the first `answers` records each hold one name and nothing else. */
  predicate ServersRead(m: seq<byte>, cuts: seq<nat>, answers: nat) {
    forall k | 0 <= k < |cuts| - 1 && k < answers && RecordAt(m, cuts[k]).Some? && RecordAt(m, cuts[k]).value.rtype == 2 ::
      ServerIn(m, RecordAt(m, cuts[k]).value).Some?
  }

  lemma {:induction false} TiledIsWalked(m: seq<byte>, cuts: seq<nat>, at: nat, end: nat, answers: nat)
    requires Tiles(m, cuts, at, end) && ServersRead(m, cuts, answers)
    ensures var w := WalkRecords(m, at, |cuts| - 1, answers); w.Some? && w.value.end == end
    decreases |cuts|
  {
    hide RecordAt, ServerIn;
    if |cuts| > 1 {
      assert RecordAt(m, cuts[0]).Some?;
      assert cuts[1..][|cuts| - 2] == cuts[|cuts| - 1];
      assert forall k | 0 <= k < |cuts| - 1 :: cuts[1..][k] == cuts[k + 1];
      TiledIsWalked(m, cuts[1..], cuts[1], end, if answers > 0 then answers - 1 else 0);
    }
  }

  lemma {:induction false} WalkReadsServers(m: seq<byte>, at: nat, count: nat, answers: nat, cuts: seq<nat>)
    requires WalkRecords(m, at, count, answers).Some? && |cuts| == count + 1
    requires Tiles(m, cuts, at, WalkRecords(m, at, count, answers).value.end)
    ensures ServersRead(m, cuts, answers)
    decreases count
  {
    hide RecordAt, ServerIn;
    if count > 0 {
      var more := if answers > 0 then answers - 1 else 0;
      assert RecordAt(m, cuts[0]).Some?;
      assert forall k | 0 <= k < |cuts| - 1 :: cuts[1..][k] == cuts[k + 1];
      WalkReadsServers(m, cuts[1], count - 1, more, cuts[1..]);
      forall k | 0 <= k < |cuts| - 1 && k < answers && RecordAt(m, cuts[k]).Some? && RecordAt(m, cuts[k]).value.rtype == 2
        ensures ServerIn(m, RecordAt(m, cuts[k]).value).Some?
      {
        if k > 0 { assert cuts[1..][k - 1] == cuts[k]; }
      }
    }
  }

  /** Header and question of an acceptable answer: at most 4096 bytes, the query's id and question, a response of opcode 0. */
  predicate Answering(m: seq<byte>, q: seq<byte>)
    requires |q| >= HEADER
  {
    && |q| <= |m| <= 4096 && m[0] == q[0] && m[1] == q[1] && 128 <= m[2] <= 135 && m[4] == 0 && m[5] == 1
    && (forall k | HEADER <= k < |q| :: m[k] == q[k])
  }

  lemma AnsweringIsEchoing(m: seq<byte>, q: seq<byte>)
    requires |q| >= HEADER
    ensures Answering(m, q) <==> Echoes(m, q)
  {
    if |q| <= |m| {
      assert m[..2] == q[..2] <==> m[0] == q[0] && m[1] == q[1];
      assert forall k | HEADER <= k < |q| :: m[HEADER..|q|][k - HEADER] == m[k] && q[HEADER..][k - HEADER] == q[k];
      assert m[HEADER..|q|] == q[HEADER..] <==> forall k | HEADER <= k < |q| :: m[k] == q[k];
    }
  }

  /** `cuts` shows that the announced records fill the message after the question. */
  ghost predicate Filled(m: seq<byte>, q: seq<byte>, cuts: seq<nat>)
    requires |q| >= HEADER && |m| >= HEADER
  {
    |cuts| == U16(m, 6) + U16(m, 8) + U16(m, 10) + 1 && Tiles(m, cuts, |q|, |m|) && ServersRead(m, cuts, U16(m, 6))
  }

  /**
   An answer is accepted if and only if it answers the question, announces at most 32 records, and
   those records, of class IN, fill the rest of it exactly, each NS answer holding just one name.
   */
  lemma AnswerIsAcceptedIff(m: seq<byte>, q: seq<byte>)
    requires |q| >= HEADER
    ensures Inspect(m, q).Some? <==>
            Answering(m, q) && U16(m, 6) + U16(m, 8) + U16(m, 10) <= 32 && exists cuts :: Filled(m, q, cuts)
  {
    hide WalkRecords, Tiles, ServersRead, Answering, Echoes;
    AnsweringIsEchoing(m, q);
    EchoesIsLong(m, q);
    if Echoes(m, q) && U16(m, 6) + U16(m, 8) + U16(m, 10) <= 32 {
      var count := U16(m, 6) + U16(m, 8) + U16(m, 10);
      var w := WalkRecords(m, |q|, count, U16(m, 6));
      if w.Some? && w.value.end == |m| {
        var cuts := WalkTiles(m, |q|, count, U16(m, 6));
        WalkReadsServers(m, |q|, count, U16(m, 6), cuts);
        assert Filled(m, q, cuts);
      }
      if cuts :| Filled(m, q, cuts) {
        TiledIsWalked(m, cuts, |q|, |m|, U16(m, 6));
      }
    }
  }

  lemma EchoesIsLong(m: seq<byte>, q: seq<byte>)
    requires |q| >= HEADER
    ensures Echoes(m, q) ==> |m| >= HEADER
  {
  }

  /** A record that is read has class IN, and its data has the announced length. */
  lemma RecordIsIn(m: seq<byte>, at: nat)
    requires RecordAt(m, at).Some? && NameRead(m, at).Some?
    ensures var r, end := RecordAt(m, at).value, NameRead(m, at).value.end;
            && end + 10 == r.dataAt <= r.end <= |m| && m[end + 2] == 0 && m[end + 3] == 1
            && r.rtype == m[end] as int * 256 + m[end + 1] as int
            && r.end - r.dataAt == m[end + 8] as int * 256 + m[end + 9] as int
  {
    hide NameRead;
  }

  method ReadRecord(m: seq<byte>, at: nat) returns (r: Option<Record>)
    ensures r == RecordAt(m, at)
  {
    var owner := ReadName(m, at);
    if owner.None? || owner.value.end + 10 > |m| {
      return None;
    }
    var offset := owner.value.end;
    var rtype, klass, length := U16(m, offset), U16(m, offset + 2), U16(m, offset + 8);
    offset := offset + 10;
    if klass != 1 || offset + length > |m| {
      return None;
    }
    return Some(Record(rtype, offset, offset + length));
  }

  /** The inspector with its loop. */
  method InspectAnswer(m: seq<byte>, q: seq<byte>) returns (r: Option<Answer>)
    requires |q| >= HEADER
    ensures r == Inspect(m, q)
  {
    if !Echoes(m, q) {
      return None;
    }
    var count := U16(m, 6) + U16(m, 8) + U16(m, 10);
    if count > MAX_RECORDS {
      return None;
    }
    var walk := WalkAll(m, |q|, count, U16(m, 6));
    if walk.None? || walk.value.end != |m| {
      return None;
    }
    return Some(Answer(m[2] / 4 % 2 == 1, m[3] / 128 % 2 == 1, m[2] / 2 % 2 == 1, m[3] % 16, walk.value.nameservers, walk.value.answerTypes));
  }

  /** The loop over the records of an answer. */
  method WalkAll(m: seq<byte>, start: nat, count: nat, answers: nat) returns (r: Option<Walk>)
    ensures r == WalkRecords(m, start, count, answers)
  {
    hide RecordAt, NameRead, ServerIn;
    var i: nat, offset: nat, nameservers: seq<seq<byte>>, types: seq<nat> := 0, start, [], [];
    JoinedSteps([], [], [], [], WalkRecords(m, start, count, answers));
    while i < count
      invariant i <= count
      invariant WalkRecords(m, start, count, answers) == Joined(nameservers, types, WalkRecords(m, offset, count - i, Left(answers, i)))
    {
      var record := ReadRecord(m, offset);
      if record.None? {
        return None;
      }
      if i < answers {
        var server: seq<seq<byte>> := [];
        if record.value.rtype == 2 {
          ServerIs(m, record.value);
          var name := ReadName(m, record.value.dataAt);
          if name.None? || name.value.end != record.value.end {
            return None;
          }
          server := [name.value.name];
        }
        JoinedSteps(nameservers, types, server, [record.value.rtype], WalkRecords(m, record.value.end, count - i - 1, Left(answers, i + 1)));
        nameservers, types := nameservers + server, types + [record.value.rtype];
      }
      i, offset := i + 1, record.value.end;
    }
    JoinedSteps(nameservers, types, [], [], Some(Walk([], [], offset)));
    return Some(Walk(nameservers, types, offset));
  }

  lemma ServerIs(m: seq<byte>, r: Record)
    ensures ServerIn(m, r) == match NameRead(m, r.dataAt) case None => None case Some(n) => if n.end != r.end then None else Some(n.name)
  {
  }

  /** Answers not yet reached after `i` records. */
  function Left(answers: nat, i: nat): nat {
    if answers > i then answers - i else 0
  }

  ghost function Joined(ns: seq<seq<byte>>, ts: seq<nat>, r: Option<Walk>): Option<Walk> {
    match r
    case None => None
    case Some(w) => Some(Walk(ns + w.nameservers, ts + w.answerTypes, w.end))
  }

  lemma JoinedSteps(ns: seq<seq<byte>>, ts: seq<nat>, ns': seq<seq<byte>>, ts': seq<nat>, r: Option<Walk>)
    ensures Joined([], [], r) == r
    ensures Joined(ns, ts, Joined(ns', ts', r)) == Joined(ns + ns', ts + ts', r)
    ensures r.Some? && r.value.nameservers == [] && r.value.answerTypes == [] ==> Joined(ns, ts, r) == Some(Walk(ns, ts, r.value.end))
  {
    if r.Some? {
      assert [] + r.value.nameservers == r.value.nameservers && [] + r.value.answerTypes == r.value.answerTypes;
      assert ns + (ns' + r.value.nameservers) == ns + ns' + r.value.nameservers;
      assert ts + (ts' + r.value.answerTypes) == ts + ts' + r.value.answerTypes;
      assert ns + [] == ns && ts + [] == ts;
    }
  }
}
