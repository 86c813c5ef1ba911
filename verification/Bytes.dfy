/** Byte strings and the big-endian integers of `Buffer`. */
module Bytes {

  type byte = x: int | 0 <= x < 256

  /** `readUInt16BE(at)` */
  function U16(m: seq<byte>, at: nat): (n: nat)
    requires at + 2 <= |m|
    ensures n < 65536
  {
    var hi: int, lo: int := m[at], m[at + 1];
    hi * 256 + lo
  }

  /** `writeUInt16BE(n)` */
  function Put16(n: nat): (s: seq<byte>)
    requires n < 65536
    ensures |s| == 2 && U16(s, 0) == n
  {
    [n / 256, n % 256]
  }

  /** `writeUInt32BE(n)` */
  function Put32(n: nat): (s: seq<byte>)
    requires n < 0x1_0000_0000
    ensures |s| == 4
  {
    Put16(n / 65536) + Put16(n % 65536)
  }

  /** `part` stands in `m` at `at`. */
  predicate At(m: seq<byte>, at: nat, part: seq<byte>) {
    at + |part| <= |m| && m[at..at + |part|] == part
  }

  lemma AtSplit(m: seq<byte>, at: nat, a: seq<byte>, b: seq<byte>)
    ensures At(m, at, a + b) <==> At(m, at, a) && At(m, at + |a|, b)
  {
    if at + |a| + |b| <= |m| {
      var both := m[at..at + |a| + |b|];
      assert both[..|a|] == m[at..at + |a|] && both[|a|..] == m[at + |a|..at + |a| + |b|];
      assert m[at..at + |a|] + m[at + |a|..at + |a| + |b|] == both;
    }
  }

  lemma AtIndex(m: seq<byte>, at: nat, part: seq<byte>, k: nat)
    requires At(m, at, part) && k < |part|
    ensures m[at + k] == part[k]
  {
    assert m[at..at + |part|][k] == m[at + k];
  }

  lemma U16At(m: seq<byte>, at: nat, n: nat)
    requires n < 65536 && At(m, at, Put16(n))
    ensures U16(m, at) == n
  {
    AtIndex(m, at, Put16(n), 0);
    AtIndex(m, at, Put16(n), 1);
  }
}
