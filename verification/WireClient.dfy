/**
 * One end of a connection reading messages.  The server's client and the agent hold the same fields
 * and run the same loop; they differ in how they judge the connection still usable.
 */
module WireClient {
  import opened Prelude
  import opened WireFrames

  /** A Go slice: a window of `len` bytes at `off`, which may grow to `cap` bytes in place. */
  datatype Slice = Slice(arr: array<byte>, off: nat, len: nat, cap: nat)
  {
    predicate Ok() { len <= cap && off + cap <= arr.Length }

    function Contents(): Bytes
      reads arr
      requires Ok()
    {
      arr[off..off + len]
    }

    /** `s[lo:hi]`, which keeps the capacity up to the end. */
    function Sub(lo: nat, hi: nat): (s: Slice)
      requires Ok() && lo <= hi <= cap
      ensures s.Ok()
    {
      Slice(arr, off + lo, hi - lo, cap - lo)
    }
  }

  lemma SubContents(s: Slice, lo: nat, hi: nat)
    requires s.Ok() && lo <= hi <= s.len
    ensures s.Sub(lo, hi).Contents() == s.Contents()[lo..hi]
    ensures s.Contents()[lo..s.len] == s.Contents()[lo..]
  {
    var a := s.arr[..];
    assert s.Contents() == a[s.off..s.off + s.len];
    assert s.Sub(lo, hi).Contents() == a[s.off + lo..s.off + hi];
    Within(a, s.off, s.len, lo, hi);
  }

  lemma Within(a: Bytes, off: nat, len: nat, lo: nat, hi: nat)
    requires off + len <= |a| && lo <= hi <= len
    ensures a[off..off + len][lo..hi] == a[off + lo..off + hi]
  {
    var x, y := a[off..off + len][lo..hi], a[off + lo..off + hi];
    assert |x| == |y| == hi - lo;
    forall k | 0 <= k < hi - lo
      ensures x[k] == y[k]
    {
      assert x[k] == a[off..off + len][lo + k];
    }
  }

  method EmptySlice() returns (s: Slice)
    ensures s.Ok() && s.len == 0 && fresh(s.arr)
  {
    var a := new byte[0];
    s := Slice(a, 0, 0, 0);
  }

  /** `append(s, bs...)`: in place while the capacity lasts, otherwise into a larger fresh array. */
  method Append(s: Slice, bs: Bytes) returns (t: Slice)
    requires s.Ok()
    modifies s.arr
    ensures t.Ok() && t.Contents() == old(s.Contents()) + bs
    ensures (t.arr == s.arr && t.off == s.off && t.len >= s.len) || fresh(t.arr)
    ensures forall i | 0 <= i < s.off + s.len :: s.arr[i] == old(s.arr[i])
  {
    if s.len + |bs| <= s.cap {
      WriteAt(s.arr, s.off + s.len, bs);
      t := s.(len := s.len + |bs|);
      assert s.arr[s.off..s.off + s.len] == old(s.Contents());
      assert t.Contents() == s.arr[s.off..s.off + s.len] + s.arr[s.off + s.len..s.off + s.len + |bs|];
    } else {
      t := Grow(s, bs);
    }
  }

  /** How much spare room a new array gets is the runtime's choice. */
  method Grow(s: Slice, bs: Bytes) returns (t: Slice)
    requires s.Ok()
    ensures t.Ok() && t.Contents() == s.Contents() + bs && fresh(t.arr)
  {
    var spare :| 0 <= spare;
    var whole := s.arr[s.off..s.off + s.len] + bs;
    var a := new byte[|whole| + spare];
    WriteAt(a, 0, whole);
    t := Slice(a, 0, |whole|, |whole| + spare);
  }

  method WriteAt(a: array<byte>, at: nat, bs: Bytes)
    requires at + |bs| <= a.Length
    modifies a
    ensures a[at..at + |bs|] == bs
    ensures forall i | 0 <= i < a.Length && !(at <= i < at + |bs|) :: a[i] == old(a[i])
  {
    var k := 0;
    while k < |bs|
      invariant 0 <= k <= |bs|
      invariant forall i | 0 <= i < k :: a[at + i] == bs[i]
      invariant forall i | 0 <= i < a.Length && !(at <= i < at + k) :: a[i] == old(a[i])
    {
      a[at + k] := bs[k];
      k := k + 1;
    }
  }

  /** What one call of `Conn.Read` with a 256-byte buffer gives. */
  datatype Read = Data(bytes: Chunk) | Fails

  const CHUNK := 256

  type Chunk = b: Bytes | |b| <= CHUNK

  /** The peer's bytes as they arrive; `incoming` are the outcomes of the reads to come. */
  class Conn {
    var incoming: seq<Read>
    ghost var received: Bytes

    constructor (incoming: seq<Read>)
      ensures this.incoming == incoming && received == []
    {
      this.incoming := incoming;
      this.received := [];
    }

    /** Everything the peer's bytes amount to, read or to be read. */
    ghost function Stream(): Bytes
      reads this
    {
      received + Flat(incoming)
    }

    /** Some read to come fails. */
    ghost predicate MayFail()
      reads this
    {
      Fails in incoming
    }

    /** `None` while nothing arrives any more; the call then blocks. */
    method Read() returns (r: Option<Read>)
      modifies this
      ensures Stream() == old(Stream()) && (MayFail() ==> old(MayFail()))
      ensures r.Some? && r.value.Fails? ==> old(MayFail())
      ensures |incoming| <= old(|incoming|)
      ensures r.None? ==> received == old(received) && |incoming| == 0
      ensures r.Some? ==> |incoming| < old(|incoming|)
      ensures r.Some? && r.value.Fails? ==> received == old(received)
      ensures r.Some? && r.value.Data? ==> received == old(received) + r.value.bytes
    {
      if |incoming| == 0 {
        return None;
      }
      var next := incoming[0];
      FlatCons(received, incoming);
      incoming := incoming[1..];
      if next.Data? {
        received := received + next.bytes;
      }
      return Some(next);
    }
  }

  /** The bytes of a run of reads. */
  ghost function Flat(rs: seq<Read>): Bytes {
    if |rs| == 0 then [] else (if rs[0].Data? then rs[0].bytes else []) + Flat(rs[1..])
  }

  lemma FlatCons(received: Bytes, incoming: seq<Read>)
    requires |incoming| > 0
    ensures received + Flat(incoming) ==
      (if incoming[0].Data? then received + incoming[0].bytes else received) + Flat(incoming[1..])
  {
  }

  // ----- The decision to read on -----

  /** The guard of the reading branch, in 32-bit arithmetic. */
  predicate NeedsMore(lth: uint32, have: nat) {
    (lth + 8) % TWO32 > have % TWO32
  }

  /** The longest payload that every cutting of the stream delivers promptly. */
  const LIMIT := TWO32 - 264

  /** The most that can have been read when the frame is first complete. */
  function Most(lth: uint32): nat {
    lth + 8 - 1 + CHUNK
  }

  lemma GuardExact(lth: uint32, have: nat)
    requires lth <= LIMIT && have <= Most(lth)
    ensures NeedsMore(lth, have) <==> have < lth + 8
  {
  }

  /** The guard is right for every amount that can have been read if and only if the payload is within `LIMIT`. */
  lemma GuardRight(lth: uint32)
    ensures (forall have: nat | have <= Most(lth) :: NeedsMore(lth, have) <==> have < lth + 8) <==> lth <= LIMIT
  {
    if lth <= LIMIT {
      forall have: nat | have <= Most(lth)
        ensures NeedsMore(lth, have) <==> have < lth + 8
      {
        GuardExact(lth, have);
      }
    } else {
      var have := if lth < TWO32 - 8 then TWO32 else lth + 8 - TWO32;
      assert have <= Most(lth) && !(NeedsMore(lth, have) <==> have < lth + 8);
    }
  }

  // ----- The reader -----

  /** The cached length is the length field of the buffer, or zero while that is incomplete. */
  ghost predicate Cached(b: Bytes, lth: uint32) {
    lth == if |b| >= 4 then LengthOf(b) else 0
  }

  /** The buffer holds no more than the frame it starts with and part of one read. */
  ghost predicate Bounded(b: Bytes) {
    |b| >= 4 && LengthOf(b) <= LIMIT ==> |b| <= Most(LengthOf(b))
  }

  /** What a call of `GetMsg` returns; `Waiting` stands for a read that never returns. */
  datatype Reply = Message(kind: uint32, data: Slice) | Invalid | ReadFailed | Waiting | Panics
  {
    ghost function Payload(): Bytes
      reads if Message? then {data.arr} else {}
    {
      if Message? && data.Ok() then data.Contents() else []
    }
  }

  /** A message's payload is a slice behind the buffer. */
  twostate predicate Returned(new r: Reply, new buf: Slice) {
    r.Message? ==> r.data.Ok() && Behind(r.data, buf) && (r.data.arr == buf.arr || fresh(r.data.arr))
  }

  /** What the buffer and the bytes that arrived during the call (`all`) became. */
  ghost predicate Explains(all: Bytes, reply: Reply, data: Bytes, left: Bytes) {
    match reply
    case Message(kind, _) =>
      && Complete(all) && LengthOf(all) < TWO32 - 8
      && First(all) == Msg(kind, data) && Rest(all) == left
      && (LengthOf(all) <= LIMIT ==> |left| < CHUNK)
    case Panics => |all| >= 4 && LengthOf(all) >= TWO32 - 8
    case Invalid => left == all
    case _ => left == all && (|all| >= 4 && LengthOf(all) <= LIMIT ==> !Complete(all))
  }

  /** `Explains`, met by a proof only where it asks for it. */
  ghost predicate Explained(all: Bytes, reply: Reply, data: Bytes, left: Bytes) {
    forall b | b == all :: Explains(b, reply, data, left)
  }

  lemma TakeExplained(all: Bytes, lth: uint32, kind: uint32, data: Bytes, left: Bytes, reply: Reply)
    requires lth + 8 < TWO32 && 8 + lth <= |all|
    requires Cached(all, lth) && Bounded(all)
    requires kind == KindOf(all) && data == all[8..8 + lth] && left == all[8 + lth..]
    requires reply.Message? && reply.kind == kind
    ensures Explained(all, reply, data, left)
  {
    assert Explains(all, reply, data, left);
  }

  lemma PanicExplained(all: Bytes)
    requires |all| >= 4 && LengthOf(all) >= TWO32 - 8
    ensures Explained(all, Panics, [], all)
  {
    assert Explains(all, Panics, [], all);
  }

  class Client {
    const conn: Conn
    var Valid: bool
    var ReadBuf: Slice
    var ReadMsgPayloadLth: uint32

    ghost predicate Ready()
      reads this, ReadBuf.arr
    {
      ReadBuf.Ok() && Cached(ReadBuf.Contents(), ReadMsgPayloadLth)
    }

    constructor (conn: Conn)
      ensures this.conn == conn && Valid && Ready() && ReadBuf.Contents() == [] && fresh(ReadBuf.arr)
    {
      var empty := EmptySlice();
      this.conn := conn;
      this.Valid := true;
      this.ReadBuf := empty;
      this.ReadMsgPayloadLth := 0;
    }

    /** The server also gives up on a client whose heartbeats are late, which depends on the clock. */
    method JudgeValid() returns (ok: bool)
      ensures ok ==> Valid
    {
      if !Valid {
        return false;
      }
      ok := *;
    }

    /** One read appended to the buffer. */
    method ReadMore() returns (r: Option<Read>)
      requires ReadBuf.Ok()
      modifies this`ReadBuf, ReadBuf.arr, conn
      ensures ReadBuf.Ok() && Kept(old(ReadBuf), ReadBuf) && conn.Stream() == old(conn.Stream())
      ensures conn.MayFail() || (r.Some? && r.value.Fails?) ==> old(conn.MayFail())
      ensures if r.Some? then |conn.incoming| < old(|conn.incoming|) else |conn.incoming| == 0
      ensures r.Some? && r.value.Data? ==>
        && conn.received == old(conn.received) + r.value.bytes
        && ReadBuf.Contents() == old(ReadBuf.Contents()) + r.value.bytes
      ensures r.None? || r.value.Fails? ==>
        ReadBuf == old(ReadBuf) && ReadBuf.Contents() == old(ReadBuf.Contents()) && conn.received == old(conn.received)
    {
      r := conn.Read();
      if r.Some? && r.value.Data? {
        ReadBuf := Append(ReadBuf, r.value.bytes);
      }
    }

    /** The length field of a buffer that has one. */
    method CacheLength()
      requires ReadBuf.Ok() && ReadBuf.len >= 4
      modifies this`ReadMsgPayloadLth
      ensures Ready()
    {
      var b, at := ReadBuf.arr, ReadBuf.off;
      ReadMsgPayloadLth := Get32(b[at], b[at + 1], b[at + 2], b[at + 3]);
    }

    /** The buffer without its first `n` bytes, and the length of the next frame. */
    method Advance(n: nat)
      requires ReadBuf.Ok() && n <= ReadBuf.len
      modifies this`ReadBuf, this`ReadMsgPayloadLth
      ensures Ready() && ReadBuf == old(ReadBuf).Sub(n, old(ReadBuf).len)
      ensures ReadBuf.Contents() == old(ReadBuf.Contents()[n..])
    {
      SubContents(ReadBuf, n, ReadBuf.len);
      ReadBuf := ReadBuf.Sub(n, ReadBuf.len);
      ReadMsgPayloadLth := 0;
      if ReadBuf.len >= 4 {
        CacheLength();
      }
    }

    /** An empty message; a buffer that held nothing else is given up. */
    method TakeEmpty() returns (data: Slice)
      requires Ready() && ReadBuf.len >= 8
      modifies this`ReadBuf, this`ReadMsgPayloadLth
      ensures Ready() && Kept(old(ReadBuf), ReadBuf)
      ensures old(ReadBuf.len) % TWO32 == old(ReadBuf.len) ==> ReadBuf.Contents() == old(ReadBuf.Contents())[8..]
      ensures data.Ok() && data.len == 0 && fresh(data.arr) && Behind(data, ReadBuf)
    {
      if ReadBuf.len % TWO32 == 8 {
        ReadBuf := EmptySlice();
        ReadMsgPayloadLth := 0;
      } else {
        Advance(8);
      }
      data := EmptySlice();
    }

    method TakePayload(msgLength: nat) returns (data: Slice)
      requires Ready() && 8 <= msgLength <= ReadBuf.len
      modifies this`ReadBuf, this`ReadMsgPayloadLth
      ensures Ready() && Kept(old(ReadBuf), ReadBuf)
      ensures ReadBuf.Contents() == old(ReadBuf.Contents())[msgLength..]
      ensures data.Ok() && data.Contents() == old(ReadBuf.Contents())[8..msgLength]
      ensures data.arr == old(ReadBuf.arr) == ReadBuf.arr && Behind(data, ReadBuf)
    {
      data := ReadBuf.Sub(8, msgLength);
      SubContents(ReadBuf, 8, msgLength);
      Advance(msgLength);
    }

    /** The last branch of the loop: the frame is complete, unless 32-bit arithmetic lost a carry. */
    method Take() returns (r: Reply)
      requires Ready() && ReadBuf.len >= 4 && !NeedsMore(ReadMsgPayloadLth, ReadBuf.len)
      modifies this`ReadBuf, this`ReadMsgPayloadLth
      ensures Ready() && Kept(old(ReadBuf), ReadBuf)
      ensures r.Message? || r.Panics?
      ensures Returned(r, ReadBuf)
      ensures old(Bounded(ReadBuf.Contents())) ==>
        Explained(old(ReadBuf.Contents()), r, r.Payload(), ReadBuf.Contents())
    {
      ghost var all := ReadBuf.Contents();
      var lth := ReadMsgPayloadLth;
      var msgLength := (8 + lth) % TWO32;
      if ReadBuf.cap < 8 || (lth != 0 && msgLength < 8) {
        WrapsOnly(lth, ReadBuf.len);
        PanicExplained(all);
        return Panics;
      }
      Fits(lth, ReadBuf.len);
      var kind := MessageType();
      var data;
      if lth == 0 {
        data := TakeEmpty();
      } else {
        data := TakePayload(msgLength);
      }
      r := Message(kind, data);
      if Bounded(all) {
        ShortIfEmpty(all);
        TakeExplained(all, lth, kind, data.Contents(), ReadBuf.Contents(), r);
      }
    }

    method MessageType() returns (kind: uint32)
      requires ReadBuf.Ok() && ReadBuf.len >= 8
      ensures kind == KindOf(ReadBuf.Contents())
    {
      var b, at := ReadBuf.arr, ReadBuf.off;
      kind := Get32(b[at + 4], b[at + 5], b[at + 6], b[at + 7]);
    }

    /**
     * One message out of the stream.  `arrived` are the bytes read during the call.  No byte that the
     * buffer or an earlier message holds is changed.
     */
    method GetMsg() returns (r: Reply, ghost arrived: Bytes)
      requires Ready()
      modifies this`ReadBuf, this`ReadMsgPayloadLth, ReadBuf.arr, conn
      ensures Ready() && Kept(old(ReadBuf), ReadBuf) && conn.Stream() == old(conn.Stream())
      ensures conn.received == old(conn.received) + arrived
      ensures Returned(r, ReadBuf)
      ensures r.Waiting? ==> |conn.incoming| == 0
      ensures conn.MayFail() || r.ReadFailed? ==> old(conn.MayFail())
      ensures old(Bounded(ReadBuf.Contents())) ==>
        Explained(old(ReadBuf.Contents()) + arrived, r, r.Payload(), ReadBuf.Contents())
    {
      arrived := [];
      var reply := None;
      while reply.None?
        invariant Ready() && Kept(old(ReadBuf), ReadBuf) && conn.Stream() == old(conn.Stream())
        invariant conn.received == old(conn.received) + arrived
        invariant reply.None? ==> ReadBuf.Contents() == old(ReadBuf.Contents()) + arrived
        invariant reply.None? ==> old(Bounded(ReadBuf.Contents())) ==> Bounded(ReadBuf.Contents())
        invariant reply.Some? ==> Returned(reply.value, ReadBuf)
        invariant reply.Some? && reply.value.Waiting? ==> |conn.incoming| == 0
        invariant conn.MayFail() || (reply.Some? && reply.value.ReadFailed?) ==> old(conn.MayFail())
        invariant reply.Some? && old(Bounded(ReadBuf.Contents())) ==>
          Explained(old(ReadBuf.Contents()) + arrived, reply.value, reply.value.Payload(), ReadBuf.Contents())
        decreases reply.None?, |conn.incoming|
      {
        ghost var bytes;
        reply, bytes := Turn();
        Assoc(old(ReadBuf.Contents()), arrived, bytes);
        Assoc(old(conn.received), arrived, bytes);
        arrived := arrived + bytes;
      }
      r := reply.value;
    }

    /** One turn of the loop of `GetMsg`. */
    method Turn() returns (r: Option<Reply>, ghost bytes: Bytes)
      requires Ready()
      modifies this`ReadBuf, this`ReadMsgPayloadLth, ReadBuf.arr, conn
      ensures Ready() && Kept(old(ReadBuf), ReadBuf) && conn.Stream() == old(conn.Stream())
      ensures conn.received == old(conn.received) + bytes
      ensures r.Some? ==> Returned(r.value, ReadBuf) && bytes == []
      ensures r.Some? && r.value.Waiting? ==> |conn.incoming| == 0
      ensures conn.MayFail() || (r.Some? && r.value.ReadFailed?) ==> old(conn.MayFail())
      ensures r.Some? && old(Bounded(ReadBuf.Contents())) ==>
        Explained(old(ReadBuf.Contents()), r.value, r.value.Payload(), ReadBuf.Contents())
      ensures r.None? ==> |conn.incoming| < old(|conn.incoming|)
      ensures r.None? ==> ReadBuf.Contents() == old(ReadBuf.Contents()) + bytes
      ensures r.None? ==> old(Bounded(ReadBuf.Contents())) ==> Bounded(ReadBuf.Contents())
    {
      ghost var before := ReadBuf.Contents();
      bytes := [];
      var valid := JudgeValid();
      if !valid {
        InvalidExplained(before);
        r := Some(Invalid);
      } else if ReadBuf.len >= 4 && !NeedsMore(ReadMsgPayloadLth, ReadBuf.len) {
        var reply := Take();
        r := Some(reply);
      } else {
        var outcome := ReadOn();
        if outcome.Some? && outcome.value.Data? {
          bytes := outcome.value.bytes;
          r := None;
          if Bounded(before) { StaysBounded(before, bytes); }
        } else {
          r := Some(if outcome.None? then Waiting else ReadFailed);
          if Bounded(before) { WaitExplained(before, r.value); }
        }
      }
    }

    /** The first two branches of the loop; only the first looks at the length field. */
    method ReadOn() returns (r: Option<Read>)
      requires Ready()
      modifies this`ReadBuf, this`ReadMsgPayloadLth, ReadBuf.arr, conn
      ensures Ready() && Kept(old(ReadBuf), ReadBuf) && conn.Stream() == old(conn.Stream())
      ensures conn.MayFail() || (r.Some? && r.value.Fails?) ==> old(conn.MayFail())
      ensures if r.Some? then |conn.incoming| < old(|conn.incoming|) else |conn.incoming| == 0
      ensures r.Some? && r.value.Data? ==>
        && conn.received == old(conn.received) + r.value.bytes
        && ReadBuf.Contents() == old(ReadBuf.Contents()) + r.value.bytes
      ensures r.None? || r.value.Fails? ==>
        ReadBuf.Contents() == old(ReadBuf.Contents()) && conn.received == old(conn.received)
    {
      if ReadBuf.len < 4 {
        r := ReadMore();
        if r.Some? && r.value.Data? && ReadBuf.len >= 4 {
          CacheLength();
        }
      } else {
        r := ReadMore();
      }
    }
  }

  lemma StaysBounded(b: Bytes, chunk: Bytes)
    requires Bounded(b) && (|b| < 4 || NeedsMore(LengthOf(b), |b|)) && |chunk| <= CHUNK
    ensures Bounded(b + chunk)
  {
    if |b| >= 4 && LengthOf(b) <= LIMIT {
      GuardExact(LengthOf(b), |b|);
    }
  }

  lemma WaitExplained(b: Bytes, reply: Reply)
    requires Bounded(b) && (|b| < 4 || NeedsMore(LengthOf(b), |b|)) && (reply.Waiting? || reply.ReadFailed?)
    ensures Explained(b, reply, [], b)
  {
    if |b| >= 4 && LengthOf(b) <= LIMIT {
      GuardExact(LengthOf(b), |b|);
    }
    assert Explains(b, reply, [], b);
  }

  lemma InvalidExplained(b: Bytes)
    ensures Explained(b, Invalid, [], b)
  {
    assert Explains(b, Invalid, [], b);
  }

  lemma ShortIfEmpty(all: Bytes)
    requires |all| >= 4 && Bounded(all)
    ensures LengthOf(all) == 0 ==> |all| % TWO32 == |all|
  {
  }

  lemma WrapsOnly(lth: uint32, have: nat)
    requires have >= 4 && !NeedsMore(lth, have)
    ensures have < 8 || (lth != 0 && (8 + lth) % TWO32 < 8) ==> lth >= TWO32 - 8
  {
  }

  lemma Fits(lth: uint32, have: nat)
    requires !NeedsMore(lth, have) && (lth != 0 ==> (8 + lth) % TWO32 >= 8)
    ensures lth + 8 < TWO32 && (8 + lth) % TWO32 == 8 + lth && lth + 8 <= have
  {
  }

  /** The slice ends before the buffer begins, or lies in another array. */
  predicate Behind(s: Slice, buf: Slice) {
    s.arr == buf.arr ==> s.off + s.len <= buf.off
  }

  /** The buffer moved on within its array, where no byte before its old end changed, or to a fresh array. */
  twostate predicate Kept(was: Slice, new now: Slice)
    reads was.arr
  {
    && was.Ok() && now.Ok()
    && (fresh(now.arr) || (now.arr == was.arr && was.off <= now.off && was.off + was.len <= now.off + now.len))
    && forall i | 0 <= i < was.off + was.len :: was.arr[i] == old(was.arr[i])
  }

}
