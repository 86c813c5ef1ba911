/**
 Reassembly of one length-prefixed DNS message from TCP chunks, `OastService.handleDnsTcp`
 (the framing of section 4.2.2 of RFC 1035).
 */
module TcpReassembly {

  import opened Common
  import opened Bytes

  const BUFFER_LIMIT: nat := 4098
  const MIN_MESSAGE: nat := 17
  const MAX_MESSAGE: nat := 4096

  /** A connection is reading, closed by the server, or has handed over its one message. */
  datatype Connection =
    | Reading(pending: seq<byte>, expected: Option<nat>)
    | Destroyed
    | Handled(message: seq<byte>)

  predicate LegalLength(n: nat) {
    MIN_MESSAGE <= n <= MAX_MESSAGE
  }

  /** After the prefix is known: reject it, wait for more, or hand over. */
  function Decide(pending: seq<byte>, n: nat): Connection {
    if !LegalLength(n) then Destroyed
    else if |pending| < n then Reading(pending, Some(n))
    else Handled(pending[..n])
  }

  /** One `data` event. */
  function Receive(c: Connection, chunk: seq<byte>): Connection {
    match c
    case Destroyed => c
    case Handled(_) => c
    case Reading(pending, expected) =>
      var all := pending + chunk;
      if |all| > BUFFER_LIMIT then Destroyed
      else match expected
        case Some(n) => Decide(all, n)
        case None => if |all| < 2 then Reading(all, None) else Decide(all[2..], U16(all, 0))
  }

  function ReceiveAll(c: Connection, chunks: seq<seq<byte>>): Connection
    decreases |chunks|
  {
    if chunks == [] then c else ReceiveAll(Receive(c, chunks[0]), chunks[1..])
  }

  const Fresh: Connection := Reading([], None)

  function Flatten(chunks: seq<seq<byte>>): seq<byte>
    decreases |chunks|
  {
    if chunks == [] then [] else chunks[0] + Flatten(chunks[1..])
  }

  /** What a byte stream means, without any chunks. */
  function Meaning(stream: seq<byte>): Connection {
    if |stream| < 2 then Reading(stream, None) else Decide(stream[2..], U16(stream, 0))
  }

  /** The stream fits the buffer, or its length prefix is refused anyway. */
  predicate ChunkProof(stream: seq<byte>) {
    |stream| <= BUFFER_LIMIT || !LegalLength(U16(stream, 0))
  }

  lemma ReceiveExtends(seen: seq<byte>, chunk: seq<byte>, rest: seq<byte>)
    requires ChunkProof(seen + chunk + rest)
    ensures Receive(Meaning(seen), chunk) == Meaning(seen + chunk)
  {
    var all := seen + chunk;
    var stream := all + rest;
    if |seen| >= 2 {
      assert all[2..] == seen[2..] + chunk && U16(all, 0) == U16(seen, 0) == U16(stream, 0);
      if LegalLength(U16(seen, 0)) && |seen[2..]| >= U16(seen, 0) {
        assert all[2..][..U16(seen, 0)] == seen[2..][..U16(seen, 0)];
      }
    } else if |all| >= 2 {
      assert U16(stream, 0) == U16(all, 0);
    }
  }

  lemma {:induction false} ReceiveAllExtends(seen: seq<byte>, chunks: seq<seq<byte>>)
    requires ChunkProof(seen + Flatten(chunks))
    ensures ReceiveAll(Meaning(seen), chunks) == Meaning(seen + Flatten(chunks))
    decreases |chunks|
  {
    if chunks == [] {
      assert seen + Flatten(chunks) == seen;
    } else {
      var rest := Flatten(chunks[1..]);
      assert seen + chunks[0] + rest == seen + Flatten(chunks);
      ReceiveExtends(seen, chunks[0], rest);
      ReceiveAllExtends(seen + chunks[0], chunks[1..]);
    }
  }

  /** Every way of cutting such a stream into chunks gives the meaning of the stream. */
  lemma ChunkingDoesNotMatter(chunks: seq<seq<byte>>)
    requires ChunkProof(Flatten(chunks))
    ensures ReceiveAll(Fresh, chunks) == Meaning(Flatten(chunks))
  {
    assert [] + Flatten(chunks) == Flatten(chunks);
    ReceiveAllExtends([], chunks);
  }

  /** A complete message is handed over, the same for every chunking: the `n` bytes after the prefix. */
  lemma CompleteMessageIsHandled(chunks: seq<seq<byte>>)
    requires var s := Flatten(chunks); 2 <= |s| <= BUFFER_LIMIT && LegalLength(U16(s, 0)) && |s| >= U16(s, 0) + 2
    ensures var s := Flatten(chunks); ReceiveAll(Fresh, chunks) == Handled(s[2..U16(s, 0) + 2])
  {
    ChunkingDoesNotMatter(chunks);
    var s := Flatten(chunks);
    assert s[2..][..U16(s, 0)] == s[2..U16(s, 0) + 2];
  }

  /** What becomes of every such stream: refused by its prefix, waiting for more, or handed over. */
  lemma OutcomeOfStream(chunks: seq<seq<byte>>)
    requires var s := Flatten(chunks); |s| <= 4098 || (|s| >= 2 && !(17 <= U16(s, 0) <= 4096))
    ensures var s, c := Flatten(chunks), ReceiveAll(Fresh, chunks);
            if |s| < 2 then c == Reading(s, None)
            else if U16(s, 0) < 17 || U16(s, 0) > 4096 then c == Destroyed
            else if |s| < U16(s, 0) + 2 then c == Reading(s[2..], Some(U16(s, 0)))
            else c == Handled(s[2..U16(s, 0) + 2])
  {
    var s := Flatten(chunks);
    ChunkingDoesNotMatter(chunks);
    if |s| >= 2 && |s| >= U16(s, 0) + 2 {
      assert s[2..][..U16(s, 0)] == s[2..U16(s, 0) + 2];
    }
  }

  /** The condition is exact: for any other stream two chunkings end differently. */
  lemma OtherStreamsDependOnChunking(stream: seq<byte>)
    requires !ChunkProof(stream)
    ensures var n := U16(stream, 0);
            && Flatten([stream]) == stream && Flatten([stream[..n + 2], stream[n + 2..]]) == stream
            && ReceiveAll(Fresh, [stream]) == Destroyed
            && ReceiveAll(Fresh, [stream[..n + 2], stream[n + 2..]]) == Handled(stream[2..n + 2])
  {
    var n := U16(stream, 0);
    var head, tail := stream[..n + 2], stream[n + 2..];
    var cut := [head, tail];
    assert cut[1..] == [tail];
    assert Flatten([tail]) == tail + [] == tail;
    assert Flatten(cut) == head + Flatten(cut[1..]) == stream;
    assert Flatten([stream]) == stream + [] == stream;
    var whole: seq<byte> := [] + stream;
    assert |whole| > BUFFER_LIMIT;
    assert ReceiveAll(Fresh, [stream]) == ReceiveAll(Receive(Fresh, stream), []);
    assert [] + head == head && U16(head, 0) == n && head[2..] == stream[2..n + 2] && head[2..][..n] == head[2..];
    assert Receive(Fresh, head) == Handled(stream[2..n + 2]);
    assert ReceiveAll(Fresh, cut) == ReceiveAll(Receive(Fresh, head), cut[1..]);
    assert ReceiveAll(Handled(stream[2..n + 2]), [tail]) == ReceiveAll(Handled(stream[2..n + 2]), [tail][1..]);
  }

  /** One accepted socket and its `data` handler. */
  class Session {
    var pending: seq<byte>
    var expected: Option<nat>
    var handled: Option<seq<byte>>
    var destroyed: bool

    ghost predicate Valid()
      reads this
    {
      !(destroyed && handled.Some?)
    }

    function View(): Connection
      reads this
    {
      if destroyed then Destroyed else if handled.Some? then Handled(handled.value) else Reading(pending, expected)
    }

    constructor ()
      ensures Valid() && View() == Fresh
    {
      pending, expected, handled, destroyed := [], None, None, false;
    }

    method OnData(chunk: seq<byte>)
      requires Valid() && !destroyed
      modifies this
      ensures Valid() && View() == Receive(old(View()), chunk)
    {
      if handled.Some? {
        return;
      }
      pending := pending + chunk;
      if |pending| > BUFFER_LIMIT {
        destroyed := true;
        return;
      }
      if expected == None && |pending| >= 2 {
        expected := Some(U16(pending, 0));
        pending := pending[2..];
      }
      if expected.Some? && (expected.value < MIN_MESSAGE || expected.value > MAX_MESSAGE) {
        destroyed := true;
        return;
      }
      if expected == None || |pending| < expected.value {
        return;
      }
      handled := Some(pending[..expected.value]);
    }
  }
}
