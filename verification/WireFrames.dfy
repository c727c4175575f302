/** The frames on the wire between agent and server: length, type, payload. */
module WireFrames {
  import opened Prelude

  const TWO32 := 0x1_0000_0000

  type uint32 = x: int | 0 <= x < TWO32

  /** A message; the payload is what the protobuf encoder produced. */
  datatype Msg = Msg(kind: uint32, data: Bytes)

  /** Four bytes, the most significant first. */
  function Put32(v: uint32): (b: Bytes)
    ensures |b| == 4
  {
    seq(4, i requires 0 <= i < 4 => Octet(v, i))
  }

  function Octet(v: uint32, i: nat): byte
    requires i < 4
  {
    var v1 := v / 256;
    var v2 := v1 / 256;
    if i == 0 then v2 / 256 else if i == 1 then v2 % 256 else if i == 2 then v1 % 256 else v % 256
  }

  function Get32(b0: byte, b1: byte, b2: byte, b3: byte): uint32 {
    ((b0 * 256 + b1) * 256 + b2) * 256 + b3
  }

  lemma GetOfPut(v: uint32)
    ensures var b := Put32(v); Get32(b[0], b[1], b[2], b[3]) == v
  {
    var b := Put32(v);
    assert b[0] == Octet(v, 0) && b[1] == Octet(v, 1) && b[2] == Octet(v, 2) && b[3] == Octet(v, 3);
  }

  lemma PutOfGet(b0: byte, b1: byte, b2: byte, b3: byte)
    ensures Put32(Get32(b0, b1, b2, b3)) == [b0, b1, b2, b3]
  {
    var v := Get32(b0, b1, b2, b3);
    assert v / 256 == (b0 * 256 + b1) * 256 + b2;
    assert v / 256 / 256 == b0 * 256 + b1;
    assert Octet(v, 0) == b0 && Octet(v, 1) == b1 && Octet(v, 2) == b2 && Octet(v, 3) == b3;
  }

  /** What `SendMsg` writes; the length field keeps only the low 32 bits. */
  function Encode(m: Msg): Bytes {
    Put32(|m.data| % TWO32) + Put32(m.kind) + m.data
  }

  function EncodeAll(ms: seq<Msg>): Bytes {
    if |ms| == 0 then [] else Encode(ms[0]) + EncodeAll(ms[1..])
  }

  function LengthOf(b: Bytes): uint32
    requires |b| >= 4
  {
    Get32(b[0], b[1], b[2], b[3])
  }

  function KindOf(b: Bytes): uint32
    requires |b| >= 8
  {
    Get32(b[4], b[5], b[6], b[7])
  }

  /** The bytes start with a whole frame. */
  predicate Complete(b: Bytes) {
    |b| >= 8 && |b| >= 8 + LengthOf(b)
  }

  function First(b: Bytes): Msg
    requires Complete(b)
  {
    Msg(KindOf(b), b[8..8 + LengthOf(b)])
  }

  function Rest(b: Bytes): Bytes
    requires Complete(b)
  {
    b[8 + LengthOf(b)..]
  }

  // ----- One frame -----

  /** Four bytes, four bytes, a payload, and what follows. */
  lemma Parts(x: Bytes, y: Bytes, data: Bytes, rest: Bytes)
    requires |x| == 4 && |y| == 4
    ensures var b := x + y + data + rest;
      && |b| == 8 + |data| + |rest|
      && b[0] == x[0] && b[1] == x[1] && b[2] == x[2] && b[3] == x[3]
      && b[4] == y[0] && b[5] == y[1] && b[6] == y[2] && b[7] == y[3]
      && b[8..8 + |data|] == data && b[8 + |data|..] == rest
  {
  }

  lemma DecodeEncode(m: Msg, rest: Bytes)
    requires |m.data| < TWO32
    ensures Complete(Encode(m) + rest) && First(Encode(m) + rest) == m && Rest(Encode(m) + rest) == rest
  {
    Modulo(|m.data|);
    GetOfPut(|m.data|);
    GetOfPut(m.kind);
    Parts(Put32(|m.data|), Put32(m.kind), m.data, rest);
  }

  lemma Modulo(n: nat)
    requires n < TWO32
    ensures n % TWO32 == n
  {
  }

  lemma Cut(b: Bytes, n: nat)
    requires 8 <= n <= |b|
    ensures [b[0], b[1], b[2], b[3]] + [b[4], b[5], b[6], b[7]] + b[8..n] + b[n..] == b
  {
  }

  lemma EncodeDecode(b: Bytes)
    requires Complete(b)
    ensures Encode(First(b)) + Rest(b) == b
  {
    PutOfGet(b[0], b[1], b[2], b[3]);
    PutOfGet(b[4], b[5], b[6], b[7]);
    Modulo(|First(b).data|);
    Cut(b, 8 + LengthOf(b));
  }

  lemma Assoc(a: Bytes, b: Bytes, c: Bytes)
    ensures a + b + c == a + (b + c)
  {
  }

  // ----- A stream of frames -----

  /** Every payload is short enough for the length field. */
  predicate Short(ms: seq<Msg>) {
    forall i | 0 <= i < |ms| :: |ms[i].data| < TWO32
  }

  lemma {:induction false} EncodeAllSnoc(ms: seq<Msg>, m: Msg)
    ensures EncodeAll(ms + [m]) == EncodeAll(ms) + Encode(m)
    decreases |ms|
  {
    if |ms| == 0 {
      assert EncodeAll([m]) == Encode(m) + EncodeAll([]);
      assert ms + [m] == [m];
    } else {
      EncodeAllSnoc(ms[1..], m);
      assert (ms + [m])[0] == ms[0] && (ms + [m])[1..] == ms[1..] + [m];
      Assoc(Encode(ms[0]), EncodeAll(ms[1..]), Encode(m));
    }
  }

  /** Cutting the head frame off two equal streams. */
  lemma SameHead(m: Msg, x: Bytes, n: Msg, y: Bytes)
    requires |m.data| < TWO32 && |n.data| < TWO32 && Encode(m) + x == Encode(n) + y
    ensures m == n && x == y
  {
    DecodeEncode(m, x);
    DecodeEncode(n, y);
  }

  /**
   * `got` was decoded from a stream of which `rest` has not been decoded or has not arrived; the stream
   * is the frames of `sent` and an unfinished frame.  Then `got` is a prefix of `sent`.
   */
  lemma {:induction false} DecodedIsPrefix(got: seq<Msg>, rest: Bytes, sent: seq<Msg>, tail: Bytes)
    requires Short(got) && Short(sent) && !Complete(tail)
    requires EncodeAll(got) + rest == EncodeAll(sent) + tail
    ensures |got| <= |sent| && got == sent[..|got|]
    ensures rest == EncodeAll(sent[|got|..]) + tail
    decreases |got|
  {
    if |got| == 0 {
      assert sent[0..] == sent && rest == EncodeAll(got) + rest;
    } else {
      var later := EncodeAll(got[1..]) + rest;
      Assoc(Encode(got[0]), EncodeAll(got[1..]), rest);
      DecodeEncode(got[0], later);
      if |sent| == 0 {
        assert false;
      } else {
        Assoc(Encode(sent[0]), EncodeAll(sent[1..]), tail);
        SameHead(got[0], later, sent[0], EncodeAll(sent[1..]) + tail);
        DecodedIsPrefix(got[1..], rest, sent[1..], tail);
        ConsPrefix(got, sent);
      }
    }
  }

  lemma ConsPrefix(got: seq<Msg>, sent: seq<Msg>)
    requires 0 < |got| <= |sent| && got[0] == sent[0] && got[1..] == sent[1..][..|got| - 1]
    ensures got == sent[..|got|] && sent[1..][|got| - 1..] == sent[|got|..]
  {
    assert got == [got[0]] + got[1..];
  }

  /** Once everything sent has arrived and no whole frame is left over, nothing is missing. */
  lemma DecodedIsAll(got: seq<Msg>, rest: Bytes, sent: seq<Msg>, tail: Bytes)
    requires Short(got) && Short(sent) && !Complete(tail) && !Complete(rest)
    requires EncodeAll(got) + rest == EncodeAll(sent) + tail
    ensures got == sent && rest == tail
  {
    DecodedIsPrefix(got, rest, sent, tail);
    var missing := sent[|got|..];
    if |missing| > 0 {
      DecodeEncode(missing[0], EncodeAll(missing[1..]) + tail);
      Assoc(Encode(missing[0]), EncodeAll(missing[1..]), tail);
      assert false;
    }
    assert rest == [] + tail;
  }
}
