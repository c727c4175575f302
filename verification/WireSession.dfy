/** A whole session: many senders on one end, the reading loop of the other. */
module WireSession {
  import opened Prelude
  import opened WireFrames
  import opened WireClient

  /** Payloads that every cutting of the stream delivers. */
  predicate Deliverable(ms: seq<Msg>) {
    forall i | 0 <= i < |ms| :: |ms[i].data| <= LIMIT
  }

  // ----- Receiving -----

  /** What the start of a stream of frames says about its first frame. */
  lemma HeadOfStream(all: Bytes, more: Bytes, sent: seq<Msg>)
    requires all + more == EncodeAll(sent) && |all| >= 4 && Deliverable(sent)
    ensures |sent| > 0 && LengthOf(all) == |sent[0].data| <= LIMIT
    ensures Complete(all) ==> First(all) == sent[0] && Rest(all) + more == EncodeAll(sent[1..])
  {
    if |sent| > 0 {
      DecodeEncode(sent[0], EncodeAll(sent[1..]));
      LengthOfPrefix(all, more);
      if Complete(all) {
        EncodeDecode(all);
        Assoc(Encode(First(all)), Rest(all), more);
        SameHead(First(all), Rest(all) + more, sent[0], EncodeAll(sent[1..]));
      }
    }
  }

  lemma LengthOfPrefix(all: Bytes, more: Bytes)
    requires |all| >= 4
    ensures LengthOf(all + more) == LengthOf(all)
  {
  }

  /** The outcome of a call of `GetMsg` at a point where the stream continues with the frames of `rest`. */
  ghost predicate Delivers(r: Reply, data: Bytes, left: Bytes, coming: Bytes, rest: seq<Msg>) {
    match r
    case Message(kind, _) =>
      |rest| > 0 && Msg(kind, data) == rest[0] && left + coming == EncodeAll(rest[1..]) && |left| < CHUNK
    case Panics => false
    case Invalid => left + coming == EncodeAll(rest)
    case _ => left + coming == EncodeAll(rest) && !Complete(left)
  }

  /** `Delivers`, met by a proof only where it asks for it. */
  ghost predicate Delivered(r: Reply, data: Bytes, left: Bytes, coming: Bytes, rest: seq<Msg>) {
    forall x | x == r :: Delivers(x, data, left, coming, rest)
  }

  lemma DeliversHead(r: Reply, data: Bytes, left: Bytes, all: Bytes, coming: Bytes, rest: seq<Msg>)
    requires Explained(all, r, data, left) && Deliverable(rest) && all + coming == EncodeAll(rest)
    ensures Delivered(r, data, left, coming, rest)
  {
    assert Explains(all, r, data, left);
    if |all| >= 4 {
      HeadOfStream(all, coming, rest);
    }
    assert Delivers(r, data, left, coming, rest);
  }

  lemma SameStream(old_: Bytes, arrived: Bytes, f: Bytes, f': Bytes, b: Bytes, more: Bytes)
    requires old_ + arrived + f' == old_ + f
    ensures b + (f + more) == (b + arrived) + (f' + more)
  {
    Assoc(old_, arrived, f');
    assert f == (old_ + f)[|old_|..];
    assert arrived + f' == (old_ + (arrived + f'))[|old_|..];
  }

  method Receive(client: Client, ghost rest: seq<Msg>, ghost more: Bytes) returns (r: Reply)
    requires client.Ready() && Deliverable(rest) && |client.ReadBuf.Contents()| < CHUNK
    requires client.ReadBuf.Contents() + (Flat(client.conn.incoming) + more) == EncodeAll(rest)
    modifies client`ReadBuf, client`ReadMsgPayloadLth, client.ReadBuf.arr, client.conn
    ensures client.Ready() && Kept(old(client.ReadBuf), client.ReadBuf) && Returned(r, client.ReadBuf)
    ensures r.Waiting? ==> |client.conn.incoming| == 0
    ensures client.conn.MayFail() || r.ReadFailed? ==> old(client.conn.MayFail())
    ensures Delivered(r, r.Payload(), client.ReadBuf.Contents(), Flat(client.conn.incoming) + more, rest)
  {
    ghost var f, before, b := Flat(client.conn.incoming), client.conn.received, client.ReadBuf.Contents();
    ghost var arrived;
    r, arrived := client.GetMsg();
    SameStream(before, arrived, f, Flat(client.conn.incoming), b, more);
    DeliversHead(r, r.Payload(), client.ReadBuf.Contents(), b + arrived, Flat(client.conn.incoming) + more, rest);
  }

  /** A message as it was handed to its handler, which reads the payload at any later time. */
  datatype Handed = Handed(kind: uint32, data: Slice)

  /** The messages handed out are, at this moment, those of `ms`, and lie behind the buffer. */
  ghost predicate Hold(handed: seq<Handed>, ms: seq<Msg>, buf: Slice)
    reads set h | h in handed :: h.data.arr
  {
    |handed| == |ms| && forall i | 0 <= i < |handed| :: Holds(handed[i], ms[i], buf)
  }

  ghost predicate Holds(h: Handed, m: Msg, buf: Slice)
    reads h.data.arr
  {
    h.data.Ok() && Behind(h.data, buf) && Msg(h.kind, h.data.Contents()) == m
  }

  /**
   * The reading loop of one connection.  The peer sent the frames of `sent`; what the reads bring, in
   * whatever pieces, is a prefix of that stream.  Whenever the loop ends, the messages handed out are
   * the first ones sent, and their payloads are intact, although they share arrays with the buffer.
   */
  method HandleConn(client: Client, ghost sent: seq<Msg>, ghost more: Bytes) returns (handed: seq<Handed>, end: Reply)
    requires client.Ready() && client.ReadBuf.Contents() == []
    requires Deliverable(sent) && Flat(client.conn.incoming) + more == EncodeAll(sent)
    modifies client, client.ReadBuf.arr, client.conn
    ensures !end.Message? && !end.Panics? && !client.Valid
    ensures |handed| <= |sent| && Hold(handed, sent[..|handed|], client.ReadBuf)
    ensures client.ReadBuf.Ok()
    ensures client.ReadBuf.Contents() + (Flat(client.conn.incoming) + more) == EncodeAll(sent[|handed|..])
    ensures !end.Invalid? ==> !Complete(client.ReadBuf.Contents())
    ensures end.Waiting? ==> |client.conn.incoming| == 0
    ensures end.ReadFailed? ==> old(client.conn.MayFail())
  {
    handed := [];
    assert sent[0..] == sent && [] + (Flat(client.conn.incoming) + more) == EncodeAll(sent);
    while true
      invariant client.Ready() && |client.ReadBuf.Contents()| < CHUNK
      invariant |handed| <= |sent|
      invariant client.ReadBuf.Contents() + (Flat(client.conn.incoming) + more) == EncodeAll(sent[|handed|..])
      invariant Hold(handed, sent[..|handed|], client.ReadBuf)
      invariant client.ReadBuf.arr == old(client.ReadBuf.arr) || fresh(client.ReadBuf.arr)
      invariant client.conn.MayFail() ==> old(client.conn.MayFail())
      decreases |sent| - |handed|
    {
      ghost var ms, rest := sent[..|handed|], sent[|handed|..];
      end := ReceiveMore(client, rest, more, handed, ms);
      assert Delivers(end, end.Payload(), client.ReadBuf.Contents(), Flat(client.conn.incoming) + more, rest);
      if !end.Message? {
        client.Valid := false;
        return;
      }
      Later(sent, |handed|);
      HoldMore(handed, ms, Handed(end.kind, end.data), sent[|handed|], client.ReadBuf);
      handed := handed + [Handed(end.kind, end.data)];
    }
  }

  lemma HoldMore(handed: seq<Handed>, ms: seq<Msg>, h: Handed, m: Msg, buf: Slice)
    requires Hold(handed, ms, buf) && Holds(h, m, buf)
    ensures Hold(handed + [h], ms + [m], buf)
  {
  }

  lemma Later(sent: seq<Msg>, n: nat)
    requires n < |sent|
    ensures sent[..n + 1] == sent[..n] + [sent[n]] && sent[n..][0] == sent[n] && sent[n..][1..] == sent[n + 1..]
  {
  }

  /** A call of `GetMsg` leaves the messages handed out before it as they were. */
  method ReceiveMore(client: Client, ghost rest: seq<Msg>, ghost more: Bytes, ghost handed: seq<Handed>, ghost ms: seq<Msg>)
      returns (r: Reply)
    requires client.Ready() && Deliverable(rest) && |client.ReadBuf.Contents()| < CHUNK
    requires Hold(handed, ms, client.ReadBuf)
    requires client.ReadBuf.Contents() + (Flat(client.conn.incoming) + more) == EncodeAll(rest)
    modifies client`ReadBuf, client`ReadMsgPayloadLth, client.ReadBuf.arr, client.conn
    ensures client.Ready() && Returned(r, client.ReadBuf)
    ensures client.ReadBuf.arr == old(client.ReadBuf.arr) || fresh(client.ReadBuf.arr)
    ensures Hold(handed, ms, client.ReadBuf)
    ensures r.Waiting? ==> |client.conn.incoming| == 0
    ensures client.conn.MayFail() || r.ReadFailed? ==> old(client.conn.MayFail())
    ensures Delivered(r, r.Payload(), client.ReadBuf.Contents(), Flat(client.conn.incoming) + more, rest)
  {
    r := Receive(client, rest, more);
    forall i | 0 <= i < |handed|
      ensures Holds(handed[i], ms[i], client.ReadBuf)
    {
      var d := handed[i].data;
      assert old(Holds(handed[i], ms[i], client.ReadBuf));
      assert d.Contents() == old(d.Contents());
    }
  }
}
