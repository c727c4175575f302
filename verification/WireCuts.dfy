/** Senders whose writes may fail: what is on the wire after frames that were cut. */
module WireCuts {
  import opened Prelude
  import opened WireFrames
  import opened WireSenders

  /** The bytes of a frame: the two header fields and the payload. */
  function Size(m: Msg): nat {
    8 + |m.data|
  }

  /** The first bytes of the frames, one after the other. */
  ghost function Pieces(order: seq<Msg>, sent: seq<nat>): Bytes
    requires |sent| == |order|
  {
    if |order| == 0 then []
    else
      var k := |order| - 1;
      Pieces(order[..k], sent[..k]) + Piece(order[k], sent[k])
  }

  /** The first `n` bytes of the frame. */
  ghost function Piece(m: Msg, n: nat): (p: Bytes)
    ensures n <= Size(m) ==> |p| == n
  {
    seq(if n <= Size(m) then n else Size(m), i requires 0 <= i < Size(m) => ByteOf(m, i))
  }

  function ByteOf(m: Msg, i: nat): byte
    requires i < Size(m)
  {
    Encode(m)[i]
  }

  lemma SizeIs(m: Msg)
    ensures |Encode(m)| == Size(m)
  {
  }

  lemma PieceIs(m: Msg, n: nat)
    requires n <= Size(m)
    ensures n <= |Encode(m)| && Piece(m, n) == Encode(m)[..n]
    ensures n == Size(m) ==> Piece(m, n) == Encode(m)
  {
    SizeIs(m);
    var p, e := Piece(m, n), Encode(m);
    forall i | 0 <= i < n
      ensures p[i] == e[i]
    {
    }
  }

  /** The sender inside is writing the last frame and has written what the record says. */
  ghost predicate LastIsInHand(s: Line)
    requires |s.sent| == |s.order|
  {
    Unfinished(s) == 1 ==>
      var p, k := s.senders[s.lock.value], |s.order| - 1;
      k >= 0 && s.order[k] == p.m && s.sent[k] == p.done
  }

  /** The first `n` frames are on the wire as a whole. */
  ghost predicate FullUpTo(order: seq<Msg>, sent: seq<nat>, n: int)
    requires |sent| == |order|
  {
    forall i | 0 <= i < |order| && i < n :: sent[i] == Size(order[i])
  }

  /** Every piece is a part of its frame. */
  ghost predicate Parts(order: seq<Msg>, sent: seq<nat>)
    requires |sent| == |order|
  {
    forall i | 0 <= i < |order| :: sent[i] <= Size(order[i])
  }

  /** As long as no write has failed only the last frame can be less than whole. */
  ghost predicate Recorded(s: Line) {
    && |s.sent| == |s.order|
    && LastIsInHand(s)
    && Parts(s.order, s.sent)
    && (s.valid ==> FullUpTo(s.order, s.sent, |s.order| - Unfinished(s)))
    && OnWire(s.wire, s.order, s.sent)
  }

  /** The pieces are the wire; behind a quantifier, so that it is looked into only where asked for. */
  ghost predicate OnWire(wire: Bytes, order: seq<Msg>, sent: seq<nat>)
    requires |sent| == |order|
  {
    forall u | u == wire :: IsPieces(u, order, sent)
  }

  ghost predicate IsPieces(wire: Bytes, order: seq<Msg>, sent: seq<nat>)
    requires |sent| == |order|
  {
    wire == Pieces(order, sent)
  }

  lemma OnWireIs(wire: Bytes, order: seq<Msg>, sent: seq<nat>)
    requires |sent| == |order|
    ensures OnWire(wire, order, sent) <==> wire == Pieces(order, sent)
  {
    assert IsPieces(wire, order, sent) <==> wire == Pieces(order, sent);
  }

  lemma PiecesSnoc(order: seq<Msg>, sent: seq<nat>, m: Msg, n: nat)
    requires |sent| == |order|
    ensures Pieces(order + [m], sent + [n]) == Pieces(order, sent) + Piece(m, n)
  {
    assert (order + [m])[..|order|] == order && (sent + [n])[..|sent|] == sent;
  }

  lemma OnWireSnoc(wire: Bytes, order: seq<Msg>, sent: seq<nat>, m: Msg)
    requires |sent| == |order| && OnWire(wire, order, sent)
    ensures OnWire(wire, order + [m], sent + [0])
  {
    OnWireIs(wire, order, sent);
    OnWireIs(wire, order + [m], sent + [0]);
    PiecesSnoc(order, sent, m, 0);
    PieceIs(m, 0);
  }

  lemma AcquireRecorded(s: Line, t: nat)
    requires Recorded(s) && Exclusive(s) && Enabled(s, t, Acquire)
    ensures Recorded(Next(s, t, Acquire))
  {
    OnWireSnoc(s.wire, s.order, s.sent, s.senders[t].m);
  }

  lemma PieceGrows(m: Msg, done: nat, n: nat)
    requires done + n <= |Encode(m)|
    ensures done + n <= Size(m) && Piece(m, done + n) == Piece(m, done) + Encode(m)[done..done + n]
  {
    SizeIs(m);
    PieceIs(m, done);
    PieceIs(m, done + n);
    Splits(Encode(m), done, n);
  }

  lemma Splits(e: Bytes, done: nat, n: nat)
    requires done + n <= |e|
    ensures e[..done + n] == e[..done] + e[done..done + n]
  {
  }

  lemma OnWireGrow(wire: Bytes, order: seq<Msg>, sent: seq<nat>, m: Msg, done: nat, more: Bytes)
    requires |sent| == |order| && Piece(m, done + |more|) == Piece(m, done) + more
    requires OnWire(wire, order + [m], sent + [done])
    ensures OnWire(wire + more, order + [m], sent + [done + |more|])
  {
    OnWireIs(wire, order + [m], sent + [done]);
    OnWireIs(wire + more, order + [m], sent + [done + |more|]);
    PiecesSnoc(order, sent, m, done);
    PiecesSnoc(order, sent, m, done + |more|);
    Assoc(Pieces(order, sent), Piece(m, done), more);
  }

  lemma SizesGrow(order: seq<Msg>, sent: seq<nat>, m: Msg, a: nat, b: nat)
    requires |sent| == |order| && b <= Size(m) && Parts(order + [m], sent + [a])
    ensures Parts(order + [m], sent + [b])
    ensures FullUpTo(order + [m], sent + [a], |order|) ==> FullUpTo(order + [m], sent + [b], |order|)
  {
    var o, x, y := order + [m], sent + [a], sent + [b];
    assert forall i | 0 <= i < |order| :: x[i] == sent[i] == y[i];
  }

  lemma FrontAndLast<T>(s: seq<T>)
    requires |s| > 0
    ensures s == s[..|s| - 1] + [s[|s| - 1]]
  {
  }

  /** The record before a write ends with the message in hand. */
  lemma WritesLast(s: Line, t: nat)
    requires |s.sent| == |s.order| && LastIsInHand(s) && Exclusive(s) && t < |s.senders| && s.senders[t].Writing?
    ensures var p, k := s.senders[t], |s.order| - 1;
      && k >= 0 && s.lock == Some(t)
      && s.order == s.order[..k] + [p.m] && s.sent == s.sent[..k] + [p.done]
  {
    HolderWrites(s, t);
    assert Unfinished(s) == 1;
    FrontAndLast(s.order);
    FrontAndLast(s.sent);
  }

  lemma WriteOnWire(s: Line, t: nat, n: nat)
    requires |s.sent| == |s.order| && LastIsInHand(s) && OnWire(s.wire, s.order, s.sent)
    requires Exclusive(s) && Enabled(s, t, Write(n))
    ensures var s' := Next(s, t, Write(n));
      |s'.sent| == |s'.order| && OnWire(s'.wire, s'.order, s'.sent)
  {
    var p, k := s.senders[t], |s.order| - 1;
    WritesLast(s, t);
    MoreOnWire(s.wire, s.order, s.sent, s.order[..k], s.sent[..k], p, n);
  }

  lemma MoreOnWire(wire: Bytes, order: seq<Msg>, sent: seq<nat>, front: seq<Msg>, before: seq<nat>, p: Phase, n: nat)
    requires p.Writing? && |sent| == |order| && |before| == |front| && p.done + n <= |Encode(p.m)|
    requires order == front + [p.m] && sent == before + [p.done] && OnWire(wire, order, sent)
    ensures OnWire(wire + Encode(p.m)[p.done..p.done + n], order, before + [p.done + n])
  {
    PieceGrows(p.m, p.done, n);
    OnWireGrow(wire, front, before, p.m, p.done, Encode(p.m)[p.done..p.done + n]);
  }

  lemma WriteSizes(s: Line, t: nat, n: nat)
    requires Recorded(s) && Exclusive(s) && Enabled(s, t, Write(n))
    ensures var s' := Next(s, t, Write(n));
      && |s'.sent| == |s'.order| && Parts(s'.order, s'.sent)
      && (s.valid ==> FullUpTo(s'.order, s'.sent, |s'.order| - 1))
  {
    var p, k := s.senders[t], |s.order| - 1;
    WritesLast(s, t);
    SizeIs(p.m);
    SizesGrow(s.order[..k], s.sent[..k], p.m, p.done, p.done + n);
  }

  lemma WriteRecorded(s: Line, t: nat, n: nat)
    requires Recorded(s) && Exclusive(s) && Enabled(s, t, Write(n))
    ensures Recorded(Next(s, t, Write(n)))
  {
    HolderWrites(s, t);
    WriteSizes(s, t, n);
    WriteOnWire(s, t, n);
  }

  lemma StepRecorded(s: Line, t: nat, a: Action)
    requires Recorded(s) && Exclusive(s) && Enabled(s, t, a)
    ensures Recorded(Next(s, t, a))
  {
    match a
    case Build(_) => NotInside(s, t);
    case Acquire => AcquireRecorded(s, t);
    case Write(n) => WriteRecorded(s, t, n);
    case Succeed => HolderWrites(s, t);
    case Fail => HolderWrites(s, t);
    case Release => HolderWrites(s, t);
  }

  /** In every state of every run, whatever has failed. */
  lemma {:induction false} ReachableRecorded(s: Line, n: nat, steps: seq<(nat, Action)>)
    requires Reachable(s, n, steps)
    ensures Recorded(s)
    decreases |steps|
  {
    if |steps| > 0 {
      var k := |steps| - 1;
      var r :| Reachable(r, n, steps[..k]) && Enabled(r, steps[k].0, steps[k].1) && s == Next(r, steps[k].0, steps[k].1);
      ReachableRecorded(r, n, steps[..k]);
      ReachableKeeps(r, n, steps[..k]);
      StepRecorded(r, steps[k].0, steps[k].1);
    }
  }

  /** The messages whose frames were written as a whole. */
  ghost function Written(order: seq<Msg>, sent: seq<nat>): seq<Msg>
    requires |sent| == |order|
  {
    if |order| == 0 then []
    else
      var k := |order| - 1;
      Written(order[..k], sent[..k]) + if sent[k] == Size(order[k]) then [order[k]] else []
  }

  ghost predicate AllOrNothing(order: seq<Msg>, sent: seq<nat>)
    requires |sent| == |order|
  {
    forall i | 0 <= i < |order| :: sent[i] == 0 || sent[i] == Size(order[i])
  }

  /** What the last piece adds to either side. */
  lemma LastPiece(order: seq<Msg>, sent: seq<nat>)
    requires |sent| == |order| > 0 && Parts(order, sent)
    ensures var k := |order| - 1;
      var bytes, frames := Pieces(order[..k], sent[..k]), EncodeAll(Written(order[..k], sent[..k]));
      && |Pieces(order, sent)| == |bytes| + sent[k]
      && |EncodeAll(Written(order, sent))| == |frames| + (if sent[k] == Size(order[k]) then sent[k] else 0)
      && (sent[k] == 0 || sent[k] == Size(order[k]) ==> bytes == frames ==> Pieces(order, sent) == EncodeAll(Written(order, sent)))
  {
    var k := |order| - 1;
    var front := Written(order[..k], sent[..k]);
    PieceIs(order[k], sent[k]);
    SizeIs(order[k]);
    EncodeAllSnoc(front, order[k]);
    assert front + [] == front;
  }

  /** The pieces are those frames exactly if nothing else was written: the lengths tell. */
  lemma {:induction false} PiecesAreFrames(order: seq<Msg>, sent: seq<nat>)
    requires |sent| == |order| && Parts(order, sent)
    ensures |Pieces(order, sent)| >= |EncodeAll(Written(order, sent))|
    ensures AllOrNothing(order, sent) <==> |Pieces(order, sent)| == |EncodeAll(Written(order, sent))|
    ensures AllOrNothing(order, sent) ==> Pieces(order, sent) == EncodeAll(Written(order, sent))
    decreases |order|
  {
    if |order| > 0 {
      var k := |order| - 1;
      PiecesAreFrames(order[..k], sent[..k]);
      LastPiece(order, sent);
      AllButLast(order, sent);
    }
  }

  lemma AllButLast(order: seq<Msg>, sent: seq<nat>)
    requires |sent| == |order| > 0
    ensures var k := |order| - 1;
      AllOrNothing(order, sent) <==> AllOrNothing(order[..k], sent[..k]) && (sent[k] == 0 || sent[k] == Size(order[k]))
  {
    var k := |order| - 1;
    forall i | 0 <= i < k
      ensures order[..k][i] == order[i] && sent[..k][i] == sent[i]
    {
    }
  }

  /** Exactly when every write put down all of its frame or nothing, the wire is the frames of whole messages. */
  lemma FramesIff(s: Line, n: nat, steps: seq<(nat, Action)>)
    requires Reachable(s, n, steps)
    ensures |s.sent| == |s.order|
    ensures s.wire == EncodeAll(Written(s.order, s.sent)) <==> AllOrNothing(s.order, s.sent)
  {
    ReachableRecorded(s, n, steps);
    OnWireIs(s.wire, s.order, s.sent);
    PiecesAreFrames(s.order, s.sent);
  }

  lemma {:induction false} FullPieces(order: seq<Msg>, sent: seq<nat>)
    requires |sent| == |order| && FullUpTo(order, sent, |order|)
    ensures Pieces(order, sent) == EncodeAll(order)
    decreases |order|
  {
    if |order| > 0 {
      var k := |order| - 1;
      FullPieces(order[..k], sent[..k]);
      PieceIs(order[k], sent[k]);
      EncodeAllSnoc(order[..k], order[k]);
      assert order == order[..k] + [order[k]];
    }
  }

  /** Nothing was written after the first `j + 1` frames, so only the last of these may be cut. */
  lemma {:induction false} PiecesUpTo(order: seq<Msg>, sent: seq<nat>, j: nat)
    requires |sent| == |order| && j < |order|
    requires FullUpTo(order, sent, j) && Parts(order, sent)
    requires forall i | j < i < |order| :: sent[i] == 0
    ensures Pieces(order, sent) == EncodeAll(order[..j]) + Piece(order[j], sent[j])
    decreases |order|
  {
    var k := |order| - 1;
    if k == j {
      FullPieces(order[..j], sent[..j]);
    } else {
      PiecesUpTo(order[..k], sent[..k], j);
      assert order[..k][..j] == order[..j];
      PieceIs(order[k], 0);
    }
  }

  /** A cut frame is never taken for a whole one. */
  lemma CutIncomplete(m: Msg, n: nat)
    requires |m.data| < TWO32 && n < Size(m)
    ensures !Complete(Piece(m, n))
  {
    PieceIs(m, n);
    DecodeEncode(m, []);
    assert Encode(m) + [] == Encode(m);
  }

  /**
   * `j` messages were written as a whole, then a part of one more at most, and nothing after that: the
   * receiver decodes a prefix of those `j`, and all of them once all bytes have arrived.
   */
  lemma ReceivedUpTo(s: Line, n: nat, steps: seq<(nat, Action)>, j: nat, got: seq<Msg>, rest: Bytes)
    requires Reachable(s, n, steps) && Short(s.order) && Short(got) && |s.sent| == |s.order|
    requires j <= |s.order| && FullUpTo(s.order, s.sent, j) && (j < |s.order| ==> s.sent[j] < Size(s.order[j]))
    requires forall i | j < i < |s.order| :: s.sent[i] == 0
    requires EncodeAll(got) + rest == s.wire
    ensures |got| <= j && got == s.order[..|got|]
    ensures !Complete(rest) ==> got == s.order[..j]
  {
    ReachableRecorded(s, n, steps);
    OnWireIs(s.wire, s.order, s.sent);
    var whole, tail := s.order[..j], [];
    if j < |s.order| {
      PiecesUpTo(s.order, s.sent, j);
      CutIncomplete(s.order[j], s.sent[j]);
      tail := Piece(s.order[j], s.sent[j]);
    } else {
      FullPieces(s.order, s.sent);
      assert whole == s.order && EncodeAll(whole) + tail == EncodeAll(whole);
    }
    DecodedIsPrefix(got, rest, whole, tail);
    assert whole[..|got|] == s.order[..|got|];
    if !Complete(rest) {
      DecodedIsAll(got, rest, whole, tail);
    }
  }

  /** The message in hand may be written to its end already. */
  lemma WholeFrames(order: seq<Msg>, sent: seq<nat>, unfinished: nat) returns (j: nat)
    requires |sent| == |order| && unfinished <= 1 && unfinished <= |order|
    requires Parts(order, sent) && FullUpTo(order, sent, |order| - unfinished)
    ensures |order| - unfinished <= j <= |order| && FullUpTo(order, sent, j)
    ensures j < |order| ==> j == |order| - 1 && sent[j] < Size(order[j])
  {
    j := |order| - unfinished;
    if j < |order| && sent[j] == Size(order[j]) {
      j := j + 1;
    }
  }

  /** While no write has failed: whatever is decoded is what was sent, in order, and in the end all of it. */
  lemma ReceivedWhileValid(s: Line, n: nat, steps: seq<(nat, Action)>, got: seq<Msg>, rest: Bytes)
    requires Reachable(s, n, steps) && s.valid && Short(s.order) && Short(got)
    requires EncodeAll(got) + rest == s.wire
    ensures |got| <= |s.order| && got == s.order[..|got|]
    ensures !Complete(rest) ==> |got| >= |s.order| - Unfinished(s)
  {
    ReachableRecorded(s, n, steps);
    var j := WholeFrames(s.order, s.sent, Unfinished(s));
    ReceivedUpTo(s, n, steps, j, got, rest);
  }

  lemma Reached(s: Line, n: nat, past: seq<(nat, Action)>, t: nat, a: Action)
    requires Reachable(s, n, past) && Enabled(s, t, a)
    ensures Reachable(Next(s, t, a), n, past + [(t, a)])
  {
    var steps := past + [(t, a)];
    assert steps[..|steps| - 1] == past;
  }

  lemma StartSending(s: Line, n: nat, past: seq<(nat, Action)>, t: nat, m: Msg) returns (r: Line, steps: seq<(nat, Action)>)
    requires Reachable(s, n, past) && t < |s.senders| && s.senders[t].Idle? && s.lock.None?
    ensures Reachable(r, n, steps)
    ensures r == s.(senders := s.senders[t := Writing(m, 0)], lock := Some(t), order := s.order + [m], sent := s.sent + [0])
  {
    var s1 := Next(s, t, Build(m));
    r := Next(s1, t, Acquire);
    Reached(s, n, past, t, Build(m));
    Reached(s1, n, past + [(t, Build(m))], t, Acquire);
    steps := past + [(t, Build(m))] + [(t, Acquire)];
    assert s1.senders[t := Writing(m, 0)] == s.senders[t := Writing(m, 0)];
  }

  /** The write puts down `k` bytes, and fails unless that is all. */
  lemma EndSending(s: Line, n: nat, past: seq<(nat, Action)>, t: nat, m: Msg, k: nat) returns (r: Line, steps: seq<(nat, Action)>)
    requires Reachable(s, n, past) && t < |s.senders| && s.senders[t] == Writing(m, 0) && k <= |Encode(m)| && |s.sent| > 0
    ensures Reachable(r, n, steps)
    ensures r == s.(senders := s.senders[t := Idle], lock := None, wire := s.wire + Encode(m)[..k],
                    valid := s.valid && k == |Encode(m)|, sent := s.sent[..|s.sent| - 1] + [k])
  {
    var last := if k == |Encode(m)| then Succeed else Fail;
    var s1 := Next(s, t, Write(k));
    var s2 := Next(s1, t, last);
    r := Next(s2, t, Release);
    Reached(s, n, past, t, Write(k));
    Reached(s1, n, past + [(t, Write(k))], t, last);
    Reached(s2, n, past + [(t, Write(k))] + [(t, last)], t, Release);
    steps := past + [(t, Write(k))] + [(t, last)] + [(t, Release)];
    assert r.senders == s.senders[t := Idle];
    assert Encode(m)[0..k] == Encode(m)[..k];
  }

  /** An idle sender with the lock free can send, whether or not an earlier write has failed. */
  lemma Sends(s: Line, n: nat, past: seq<(nat, Action)>, t: nat, m: Msg, k: nat) returns (r: Line, steps: seq<(nat, Action)>)
    requires Reachable(s, n, past) && t < |s.senders| && s.senders[t].Idle? && s.lock.None? && k <= |Encode(m)|
    ensures Reachable(r, n, steps)
    ensures r == Line(s.senders, None, s.wire + Encode(m)[..k], s.valid && k == |Encode(m)|, s.order + [m], s.sent + [k])
  {
    var s1, mid := StartSending(s, n, past, t, m);
    r, steps := EndSending(s1, n, mid, t, m, k);
    assert s1.senders[t := Idle] == s.senders;
    assert s1.sent[..|s1.sent| - 1] == s.sent;
  }

  /** The frame of a message without payload starts with the length zero. */
  lemma EmptyFrame(m: Msg)
    requires m.data == []
    ensures Encode(m) == Put32(0) + Put32(m.kind)
  {
    Modulo(0);
    NoMore(Put32(0), Put32(m.kind), m.data);
  }

  lemma NoMore(x: Bytes, y: Bytes, none: Bytes)
    requires none == []
    ensures x + y + none == x + y
  {
  }

  /** Half a header and a header are a header with the type zero, and half a header. */
  lemma HeadersMix(z: Bytes, k1: Bytes, k2: Bytes)
    requires |z| == 4
    ensures (z + k1)[..4] + (z + k2) == z + z + k2
  {
    Assoc(z, z, k2);
  }

  /** One message can be decoded, and it is `m`; behind a quantifier like `OnWire`. */
  ghost predicate Yields(wire: Bytes, m: Msg) {
    forall u | u == wire :: YieldsOnly(u, m)
  }

  ghost predicate YieldsOnly(wire: Bytes, m: Msg) {
    Complete(wire) && First(wire) == m && !Complete(Rest(wire))
  }

  lemma FrameThenStump(m: Msg, stump: Bytes)
    requires |m.data| < TWO32 && |stump| < 8
    ensures Yields(Encode(m) + stump, m)
  {
    DecodeEncode(m, stump);
    assert YieldsOnly(Encode(m) + stump, m);
  }

  lemma MixIs(m1: Msg, m2: Msg, m0: Msg) returns (stump: Bytes)
    requires m1.data == m2.data == m0.data == [] && m0.kind == 0 && |Encode(m1)| >= 4
    ensures |stump| == 4 && Encode(m1)[..4] + Encode(m2) == Encode(m0) + stump
  {
    EmptyFrame(m0);
    EmptyFrame(m1);
    EmptyFrame(m2);
    stump := Put32(m2.kind);
    HeadersMix(Put32(0), Put32(m1.kind), stump);
  }

  /**
   * The sender does not look at the flag, so a frame can follow a cut one.  Here the first of two senders
   * fails after four bytes; the second succeeds, but the receiver gets a message that nobody sent, and
   * never the one that was written as a whole.
   */
  lemma FrameAfterCut(m1: Msg, m2: Msg, m0: Msg) returns (s: Line, steps: seq<(nat, Action)>)
    requires m1.data == m2.data == m0.data == [] && m0.kind == 0 && m0 !in {m1, m2}
    ensures Reachable(s, 2, steps) && s.order == [m1, m2] && |s.sent| == 2
    ensures Written(s.order, s.sent) == [m2]
    ensures Yields(s.wire, m0)
  {
    s, steps := CutAndSend(m1, m2);
    WrittenHere(m1, m2);
    var stump := MixIs(m1, m2, m0);
    FrameThenStump(m0, stump);
  }

  lemma CutAndSend(m1: Msg, m2: Msg) returns (s: Line, steps: seq<(nat, Action)>)
    ensures Reachable(s, 2, steps) && s.order == [m1, m2] && s.sent == [4, Size(m2)]
    ensures |Encode(m1)| >= 4 && s.wire == Encode(m1)[..4] + Encode(m2)
  {
    SizeIs(m1);
    SizeIs(m2);
    var s1, mid := Sends(Start(2), 2, [], 0, m1, 4);
    s, steps := Sends(s1, 2, mid, 1, m2, |Encode(m2)|);
  }

  lemma WrittenHere(m1: Msg, m2: Msg)
    ensures Written([m1, m2], [4, Size(m2)]) == [m2]
  {
    assert [m1, m2][..1] == [m1] && [4, Size(m2)][..1] == [4];
    assert Written([m1], [4]) == Written([m1][..0], [4][..0]) + [];
  }
}
