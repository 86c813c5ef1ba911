/**
 Domain names: the dotted form, the label form, and the uncompressed wire form of section 3.1 of
 RFC 1035.  A dotted name is the byte string of its text.

 Decoding a buffer as "ascii" drops the top bit of every byte, so the label test of the parser
 and of the name reader looks at `b % 128`.
 */
module DnsName {
  import opened Bytes

  const DOT: byte := 46
  const MAX_WIRE: nat := 255

  predicate LabelChar(c: byte) {
    48 <= c <= 57 || 65 <= c <= 90 || 97 <= c <= 122 || c == 95 || c == 45
  }

  function LowerChar(c: byte): byte {
    if 65 <= c <= 90 then c + 32 else c
  }

  /** `toLowerCase()` on text of single-byte characters. */
  function Lower(s: seq<byte>): (r: seq<byte>)
    ensures |r| == |s|
  {
    seq(|s|, k requires 0 <= k < |s| => LowerChar(s[k]))
  }

  /** `toString("ascii")` */
  function Ascii(s: seq<byte>): (r: seq<byte>)
    ensures |r| == |s|
  {
    seq(|s|, k requires 0 <= k < |s| => s[k] % 128)
  }

  predicate IsAscii(s: seq<byte>) {
    forall k | 0 <= k < |s| :: s[k] < 128
  }

  /** What a wire label of these bytes must satisfy to be read: size, and the character test. */
  predicate Readable(l: seq<byte>) {
    1 <= |l| <= 63 && forall k | 0 <= k < |l| :: LabelChar(Ascii(l)[k])
  }

  predicate AllReadable(ls: seq<seq<byte>>) {
    forall k | 0 <= k < |ls| :: Readable(ls[k])
  }

  function LowerAll(ls: seq<seq<byte>>): (r: seq<seq<byte>>)
    ensures |r| == |ls|
  {
    seq(|ls|, k requires 0 <= k < |ls| => Lower(ls[k]))
  }

  function AsciiAll(ls: seq<seq<byte>>): (r: seq<seq<byte>>)
    ensures |r| == |ls|
  {
    seq(|ls|, k requires 0 <= k < |ls| => Ascii(ls[k]))
  }

  /** Letters, digits, underscore and hyphen. */
  lemma LabelCharsAre(c: byte)
    ensures LabelChar(c) <==>
            || 'a' as int <= c <= 'z' as int || 'A' as int <= c <= 'Z' as int || '0' as int <= c <= '9' as int
            || c == '_' as int || c == '-' as int
  {
  }

  /** Lower case: no capital is left, and a byte is changed only from a capital to its small letter. */
  lemma LowerIsLowerCase(s: seq<byte>, k: nat)
    requires k < |s|
    ensures !('A' as int <= Lower(s)[k] <= 'Z' as int)
    ensures Lower(s)[k] != s[k] ==> 'A' as int <= s[k] <= 'Z' as int && Lower(s)[k] - 'a' as int == s[k] - 'A' as int
  {
  }

  // ---------------------------------------------------------------- dotted form

  /** `split(".")` */
  function Split(s: seq<byte>): (ls: seq<seq<byte>>)
    ensures ls != []
    decreases |s|
  {
    if s == [] then [[]]
    else
      var rest := Split(s[1..]);
      if s[0] == DOT then [[]] + rest else [[s[0]] + rest[0]] + rest[1..]
  }

  /** `join(".")` */
  function Join(ls: seq<seq<byte>>): seq<byte>
    decreases |ls|
  {
    if ls == [] then [] else if |ls| == 1 then ls[0] else ls[0] + [DOT] + Join(ls[1..])
  }

  lemma {:induction false} JoinOfSplit(s: seq<byte>)
    ensures Join(Split(s)) == s
    decreases |s|
  {
    if s != [] {
      var rest := Split(s[1..]);
      JoinOfSplit(s[1..]);
      if s[0] == DOT {
        assert Split(s)[1..] == rest;
      } else {
        var ls := Split(s);
        assert ls == [[s[0]] + rest[0]] + rest[1..];
        if |rest| > 1 {
          assert ls[1..] == rest[1..];
        }
      }
    }
  }

  predicate Dotless(l: seq<byte>) {
    forall k | 0 <= k < |l| :: l[k] != DOT
  }

  lemma {:induction false} SplitOfLabel(l: seq<byte>, rest: seq<byte>)
    requires Dotless(l)
    ensures Split(l) == [l]
    ensures Split(l + [DOT] + rest) == [l] + Split(rest)
    decreases |l|
  {
    var s := l + [DOT] + rest;
    if l == [] {
      assert s[1..] == rest;
    } else {
      SplitOfLabel(l[1..], rest);
      assert s[1..] == l[1..] + [DOT] + rest;
      assert Split(s[1..])[1..] == Split(rest);
      assert [l[0]] + l[1..] == l;
    }
  }

  lemma {:induction false} SplitOfJoin(ls: seq<seq<byte>>)
    requires ls != [] && forall k | 0 <= k < |ls| :: Dotless(ls[k])
    ensures Split(Join(ls)) == ls
    decreases |ls|
  {
    if |ls| == 1 {
      SplitOfLabel(ls[0], []);
    } else {
      SplitOfJoin(ls[1..]);
      SplitOfLabel(ls[0], Join(ls[1..]));
    }
  }

  lemma {:induction false} LowerOfJoin(ls: seq<seq<byte>>)
    ensures Lower(Join(ls)) == Join(LowerAll(ls))
    decreases |ls|
  {
    if |ls| >= 2 {
      LowerOfJoin(ls[1..]);
      assert LowerAll(ls)[1..] == LowerAll(ls[1..]);
      assert Lower(ls[0] + [DOT] + Join(ls[1..])) == Lower(ls[0]) + [DOT] + Lower(Join(ls[1..]));
    } else if |ls| == 1 {
      assert LowerAll(ls) == [Lower(ls[0])];
    }
  }

  lemma {:induction false} AsciiOfJoin(ls: seq<seq<byte>>)
    ensures Ascii(Join(ls)) == Join(AsciiAll(ls))
    decreases |ls|
  {
    if |ls| >= 2 {
      AsciiOfJoin(ls[1..]);
      assert AsciiAll(ls)[1..] == AsciiAll(ls[1..]);
      assert Ascii(ls[0] + [DOT] + Join(ls[1..])) == Ascii(ls[0]) + [DOT] + Ascii(Join(ls[1..]));
    } else if |ls| == 1 {
      assert AsciiAll(ls) == [Ascii(ls[0])];
    }
  }

  // ---------------------------------------------------------------- wire form

  /** One label: `Buffer.from([byteLength])`, which keeps the low byte only, and the text. */
  function LabelBytes(l: seq<byte>): seq<byte> {
    [|l| % 256] + l
  }

  function LabelsBytes(ls: seq<seq<byte>>): seq<byte>
    decreases |ls|
  {
    if ls == [] then [] else LabelBytes(ls[0]) + LabelsBytes(ls[1..])
  }

  function WireName(ls: seq<seq<byte>>): seq<byte> {
    LabelsBytes(ls) + [0]
  }

  /** `nameBytes` */
  function NameBytes(name: seq<byte>): seq<byte> {
    WireName(Split(name))
  }

  /** The wire form is two bytes longer than the text. */
  lemma {:induction false} WireLength(ls: seq<seq<byte>>)
    requires ls != []
    ensures |WireName(ls)| == |Join(ls)| + 2
    decreases |ls|
  {
    if |ls| == 1 {
      assert LabelsBytes(ls[1..]) == [];
    } else {
      WireLength(ls[1..]);
    }
  }

  /** A name the wire format, its limits and the label test admit. */
  predicate Legal(name: seq<byte>) {
    AllReadable(Split(name)) && |name| <= MAX_WIRE - 2
  }

  lemma {:induction false} LowerOfWire(ls: seq<seq<byte>>)
    requires AllReadable(ls)
    ensures LabelsBytes(LowerAll(ls)) == Lower(LabelsBytes(ls))
    decreases |ls|
  {
    if ls != [] {
      LowerOfWire(ls[1..]);
      assert LowerAll(ls)[1..] == LowerAll(ls[1..]);
      assert Lower(LabelBytes(ls[0]) + LabelsBytes(ls[1..])) == LabelBytes(Lower(ls[0])) + Lower(LabelsBytes(ls[1..]));
    }
  }

  lemma {:induction false} AsciiOfWire(ls: seq<seq<byte>>)
    requires AllReadable(ls)
    ensures LabelsBytes(AsciiAll(ls)) == Ascii(LabelsBytes(ls))
    decreases |ls|
  {
    if ls != [] {
      AsciiOfWire(ls[1..]);
      assert AsciiAll(ls)[1..] == AsciiAll(ls[1..]);
      assert Ascii(LabelBytes(ls[0]) + LabelsBytes(ls[1..])) == LabelBytes(Ascii(ls[0])) + Ascii(LabelsBytes(ls[1..]));
    }
  }

  lemma AsciiOfReadable(l: seq<byte>)
    requires Readable(l)
    ensures Readable(Ascii(l)) && IsAscii(Ascii(l)) && Dotless(Ascii(l))
    ensures Readable(Lower(Ascii(l))) && IsAscii(Lower(Ascii(l))) && Dotless(Lower(Ascii(l)))
  {
    assert Ascii(Ascii(l)) == Ascii(l);
    assert Ascii(Lower(Ascii(l))) == Lower(Ascii(l));
  }

  /** Printing the dotted text of readable labels, ASCII-decoded and in lower case, prints those labels. */
  lemma PrintedLabels(ls: seq<seq<byte>>)
    requires AllReadable(ls) && ls != []
    ensures NameBytes(Lower(Join(AsciiAll(ls)))) == Lower(Ascii(WireName(ls)))
  {
    var plain := AsciiAll(ls);
    forall k | 0 <= k < |ls| ensures Readable(plain[k]) && Dotless(LowerAll(plain)[k]) {
      AsciiOfReadable(ls[k]);
    }
    LowerOfJoin(plain);
    SplitOfJoin(LowerAll(plain));
    LowerOfWire(plain);
    AsciiOfWire(ls);
    assert Lower(Ascii(WireName(ls))) == Lower(Ascii(LabelsBytes(ls))) + [0];
  }

  /** The label form of a wire name is unique among labels of at most 255 bytes, empty ones included. */
  lemma {:induction false} WireNameInjective(a: seq<seq<byte>>, b: seq<seq<byte>>)
    requires (forall k | 0 <= k < |a| :: |a[k]| < 256) && AllReadable(b)
    requires WireName(a) == WireName(b)
    ensures a == b
    decreases |b|
  {
    if a != [] && b != [] {
      assert WireName(a)[0] == |a[0]| && WireName(b)[0] == |b[0]|;
      var n := |a[0]|;
      assert WireName(a)[1..n + 1] == a[0] && WireName(b)[1..n + 1] == b[0];
      assert WireName(a)[n + 1..] == WireName(a[1..]) && WireName(b)[n + 1..] == WireName(b[1..]);
      WireNameInjective(a[1..], b[1..]);
    }
  }

  lemma {:induction false} LabelsFit(ls: seq<seq<byte>>, k: nat)
    requires k < |ls|
    ensures |ls[k]| < |LabelsBytes(ls)|
    decreases |ls|
  {
    if k > 0 {
      LabelsFit(ls[1..], k - 1);
    }
  }
}
