/**
 * Concurrent senders on one connection.  A write reaches the wire in pieces, in any interleaving with the
 * steps of other senders; the send lock is what keeps the frames whole.
 */
module WireSenders {
  import opened Prelude
  import opened WireFrames
  import WireClient
  import WireSession

  /** Where one run of `SendMsg` stands. */
  datatype Phase =
    | Idle
    | Built(m: Msg)
    | Writing(m: Msg, done: nat)
    | Leaving

  /**
   * The sending end; `order` are the messages in the order in which their senders got the lock, and `sent`
   * says how many bytes of each frame were written.
   */
  datatype Line = Line(senders: seq<Phase>, lock: Option<nat>, wire: Bytes, valid: bool, order: seq<Msg>, sent: seq<nat>)

  datatype Action =
    | Build(m: Msg)
    | Acquire
    | Write(n: nat)
    | Succeed
    | Fail
    | Release

  predicate Enabled(s: Line, t: nat, a: Action) {
    t < |s.senders| &&
    match a
    case Build(_) => s.senders[t].Idle?
    case Acquire => s.senders[t].Built? && s.lock.None?
    case Write(n) => s.senders[t].Writing? && s.senders[t].done + n <= |Encode(s.senders[t].m)|
    case Succeed => s.senders[t].Writing? && s.senders[t].done == |Encode(s.senders[t].m)|
    case Fail => s.senders[t].Writing?
    case Release => s.senders[t].Leaving?
  }

  /** One step of sender `t`.  Nothing but the lock holds a sender back. */
  function Next(s: Line, t: nat, a: Action): Line
    requires Enabled(s, t, a)
  {
    var p := s.senders[t];
    match a
    case Build(m) => s.(senders := s.senders[t := Built(m)])
    case Acquire => s.(senders := s.senders[t := Writing(p.m, 0)], lock := Some(t), order := s.order + [p.m], sent := s.sent + [0])
    case Write(n) =>
      s.(
        senders := s.senders[t := Writing(p.m, p.done + n)],
        wire := s.wire + Encode(p.m)[p.done..p.done + n],
        sent := if |s.sent| == 0 then [] else s.sent[..|s.sent| - 1] + [p.done + n])
    case Succeed => s.(senders := s.senders[t := Leaving])
    case Fail => s.(senders := s.senders[t := Leaving], valid := false)
    case Release => s.(senders := s.senders[t := Idle], lock := None)
  }

  function Start(n: nat): Line {
    Line(seq(n, _ => Idle), None, [], true, [], [])
  }

  ghost predicate Reachable(s: Line, n: nat, steps: seq<(nat, Action)>)
    decreases |steps|
  {
    if |steps| == 0 then s == Start(n)
    else
      var k := |steps| - 1;
      exists r :: Reachable(r, n, steps[..k]) && Enabled(r, steps[k].0, steps[k].1) && s == Next(r, steps[k].0, steps[k].1)
  }

  // ----- The invariant -----

  predicate Inside(p: Phase) {
    p.Writing? || p.Leaving?
  }

  /** The sender inside the locked section is the one that holds the lock. */
  ghost predicate Exclusive(s: Line) {
    forall t | 0 <= t < |s.senders| :: Inside(s.senders[t]) <==> s.lock == Some(t)
  }

  /** The wire is whole frames, but for the last one, of which it has the first bytes. */
  ghost predicate AllButRest(wire: Bytes, order: seq<Msg>, m: Msg, done: nat) {
    && |order| > 0 && order[|order| - 1] == m && done <= |Encode(m)|
    && wire == EncodeAll(order[..|order| - 1]) + Encode(m)[..done]
  }

  /** `AllButRest`, looked into only where asked for. */
  ghost predicate Partial(wire: Bytes, order: seq<Msg>, m: Msg, done: nat) {
    forall u | u == wire :: AllButRest(u, order, m, done)
  }

  /** The wire is whole frames but for the one being written. */
  ghost predicate Whole(s: Line) {
    if s.lock.Some? && s.lock.value < |s.senders| && s.senders[s.lock.value].Writing? then
      Partial(s.wire, s.order, s.senders[s.lock.value].m, s.senders[s.lock.value].done)
    else
      s.wire == EncodeAll(s.order)
  }

  ghost predicate Inv(s: Line) {
    Exclusive(s) && (s.valid ==> Whole(s))
  }

  lemma StepExclusive(s: Line, t: nat, a: Action)
    requires Exclusive(s) && Enabled(s, t, a)
    ensures Exclusive(Next(s, t, a))
  {
  }

  /** The sender inside is the holder, so the message being written is its own. */
  lemma HolderWrites(s: Line, t: nat)
    requires Exclusive(s) && t < |s.senders| && Inside(s.senders[t])
    ensures s.lock == Some(t)
  {
  }

  lemma NotInside(s: Line, t: nat)
    requires Exclusive(s) && t < |s.senders| && !Inside(s.senders[t])
    ensures s.lock != Some(t)
  {
  }

  lemma NoneWritten(order: seq<Msg>, m: Msg)
    ensures Partial(EncodeAll(order), order + [m], m, 0)
  {
    assert (order + [m])[..|order|] == order;
    assert AllButRest(EncodeAll(order), order + [m], m, 0);
  }

  lemma MoreWritten(wire: Bytes, order: seq<Msg>, m: Msg, done: nat, n: nat)
    requires Partial(wire, order, m, done) && done + n <= |Encode(m)|
    ensures Partial(wire + Encode(m)[done..done + n], order, m, done + n)
  {
    assert AllButRest(wire, order, m, done);
    MoreOfFrame(EncodeAll(order[..|order| - 1]), Encode(m), done, n);
    assert AllButRest(wire + Encode(m)[done..done + n], order, m, done + n);
  }

  lemma MoreOfFrame(front: Bytes, e: Bytes, done: nat, n: nat)
    requires done + n <= |e|
    ensures front + e[..done] + e[done..done + n] == front + e[..done + n]
  {
    assert e[..done + n] == e[..done] + e[done..done + n];
    Assoc(front, e[..done], e[done..done + n]);
  }

  /** What is missing is the rest of the last frame. */
  lemma RestMissing(wire: Bytes, order: seq<Msg>, m: Msg, done: nat) returns (lack: Bytes)
    requires Partial(wire, order, m, done)
    ensures |order| > 0 && order[|order| - 1] == m && done <= |Encode(m)|
    ensures lack == Encode(m)[done..] && wire + lack == EncodeAll(order)
  {
    assert AllButRest(wire, order, m, done);
    var front, e := order[..|order| - 1], Encode(m);
    lack := e[done..];
    assert front + [m] == order;
    EncodeAllSnoc(front, m);
    Assoc(EncodeAll(front), e[..done], lack);
    assert e[..done] + lack == e;
  }

  lemma WriteWhole(s: Line, t: nat, n: nat)
    requires Whole(s) && Enabled(s, t, Write(n)) && s.lock == Some(t)
    ensures Whole(Next(s, t, Write(n)))
  {
    MoreWritten(s.wire, s.order, s.senders[t].m, s.senders[t].done, n);
  }

  lemma SucceedWhole(s: Line, t: nat)
    requires Whole(s) && Enabled(s, t, Succeed) && s.lock == Some(t)
    ensures Whole(Next(s, t, Succeed))
  {
    var p := s.senders[t];
    var lack := RestMissing(s.wire, s.order, p.m, p.done);
    assert s.wire + lack == s.wire;
  }

  lemma StepKeeps(s: Line, t: nat, a: Action)
    requires Inv(s) && Enabled(s, t, a)
    ensures Inv(Next(s, t, a))
  {
    StepExclusive(s, t, a);
    if s.valid {
      match a
      case Build(_) => NotInside(s, t);
      case Acquire => NoneWritten(s.order, s.senders[t].m);
      case Write(n) => HolderWrites(s, t); WriteWhole(s, t, n);
      case Succeed => HolderWrites(s, t); SucceedWhole(s, t);
      case Fail =>
      case Release => HolderWrites(s, t);
    }
  }

  lemma {:induction false} ReachableKeeps(s: Line, n: nat, steps: seq<(nat, Action)>)
    requires Reachable(s, n, steps)
    ensures Inv(s)
    decreases |steps|
  {
    if |steps| > 0 {
      var k := |steps| - 1;
      var r :| Reachable(r, n, steps[..k]) && Enabled(r, steps[k].0, steps[k].1) && s == Next(r, steps[k].0, steps[k].1);
      ReachableKeeps(r, n, steps[..k]);
      StepKeeps(r, steps[k].0, steps[k].1);
    }
  }

  /** The message whose write has not returned yet. */
  function Unfinished(s: Line): nat {
    if s.lock.Some? && s.lock.value < |s.senders| && s.senders[s.lock.value].Writing? then 1 else 0
  }

  /** While the connection is valid, what the wire lacks is at most the rest of the last frame. */
  lemma WireLacks(s: Line, n: nat, steps: seq<(nat, Action)>) returns (lack: Bytes)
    requires Reachable(s, n, steps) && s.valid
    ensures Unfinished(s) <= |s.order|
    ensures s.wire + lack == EncodeAll(s.order)
    ensures Unfinished(s) == 0 ==> lack == []
    ensures Unfinished(s) == 1 ==> |lack| <= |Encode(s.order[|s.order| - 1])|
  {
    ReachableKeeps(s, n, steps);
    if Unfinished(s) == 0 {
      lack := [];
    } else {
      var p := s.senders[s.lock.value];
      lack := RestMissing(s.wire, s.order, p.m, p.done);
    }
  }

  // ----- Senders and receiver -----

  /** Two frames or more cannot be missing when less than the last one is. */
  lemma OnlyLast(left: Bytes, lack: Bytes, rest: seq<Msg>)
    requires left + lack == EncodeAll(rest) && WireSession.Deliverable(rest) && |rest| > 0
    requires |rest| >= 2 || lack == []
    requires |lack| <= |Encode(rest[|rest| - 1])|
    ensures Complete(left)
  {
    DecodeEncode(rest[0], EncodeAll(rest[1..]));
    if |rest| >= 2 {
      AtLeastLast(rest[1..]);
    } else {
      assert left + lack == left;
    }
    var frame := Encode(rest[0]);
    assert |left| >= |frame| && left[..|frame|] == (left + lack)[..|frame|] == frame;
    DecodeEncode(rest[0], left[|frame|..]);
    assert left == frame + left[|frame|..];
  }

  lemma {:induction false} AtLeastLast(ms: seq<Msg>)
    requires |ms| > 0
    ensures |EncodeAll(ms)| >= |Encode(ms[|ms| - 1])|
  {
    var front := ms[..|ms| - 1];
    EncodeAllSnoc(front, ms[|ms| - 1]);
    assert front + [ms[|ms| - 1]] == ms;
  }

  /**
   * Senders and receiver together.  `s` is any state of the sending end in which it is still valid, and
   * the reads bring the wire's bytes, in any pieces, up to some point.
   */
  method Session(client: WireClient.Client, ghost s: Line, ghost n: nat, ghost steps: seq<(nat, Action)>, ghost transit: Bytes)
      returns (handed: seq<WireSession.Handed>, end: WireClient.Reply)
    requires client.Ready() && client.ReadBuf.Contents() == []
    requires Reachable(s, n, steps) && s.valid && WireSession.Deliverable(s.order)
    requires WireClient.Flat(client.conn.incoming) + transit == s.wire
    modifies client, client.ReadBuf.arr, client.conn
    ensures !end.Message? && !end.Panics?
    ensures |handed| <= |s.order| && WireSession.Hold(handed, s.order[..|handed|], client.ReadBuf)
    ensures end.ReadFailed? ==> old(client.conn.MayFail())
    ensures transit == [] && !end.Invalid? && !old(client.conn.MayFail()) ==> |handed| >= |s.order| - Unfinished(s)
  {
    ghost var lack := WireLacks(s, n, steps);
    handed, end := ReceiveAll(client, s.order, s.wire, lack, Unfinished(s), transit);
  }

  /** The receiver, when the wire lacks the rest of the last frame at most. */
  method ReceiveAll(client: WireClient.Client, ghost order: seq<Msg>, ghost wire: Bytes, ghost lack: Bytes,
                    ghost unfinished: nat, ghost transit: Bytes)
      returns (handed: seq<WireSession.Handed>, end: WireClient.Reply)
    requires client.Ready() && client.ReadBuf.Contents() == [] && WireSession.Deliverable(order)
    requires WireClient.Flat(client.conn.incoming) + transit == wire && wire + lack == EncodeAll(order)
    requires unfinished <= 1 && (unfinished == 0 ==> lack == [])
    requires |order| > 0 ==> |lack| <= |Encode(order[|order| - 1])|
    modifies client, client.ReadBuf.arr, client.conn
    ensures !end.Message? && !end.Panics?
    ensures |handed| <= |order| && WireSession.Hold(handed, order[..|handed|], client.ReadBuf)
    ensures end.ReadFailed? ==> old(client.conn.MayFail())
    ensures transit == [] && !end.Invalid? && !old(client.conn.MayFail()) ==> |handed| >= |order| - unfinished
  {
    Assoc(WireClient.Flat(client.conn.incoming), transit, lack);
    handed, end := WireSession.HandleConn(client, order, transit + lack);
    ghost var rest := order[|handed|..];
    if end.Waiting? && transit == [] {
      NothingMissing(client.ReadBuf.Contents(), WireClient.Flat(client.conn.incoming), transit, lack, rest, unfinished);
    }
  }

  /** When all bytes on the wire have been read, only the frame still being written is missing. */
  lemma NothingMissing(left: Bytes, coming: Bytes, transit: Bytes, lack: Bytes, rest: seq<Msg>, unfinished: nat)
    requires coming == [] && transit == [] && left + (coming + (transit + lack)) == EncodeAll(rest)
    requires WireSession.Deliverable(rest) && !Complete(left) && unfinished <= 1
    requires unfinished == 0 ==> lack == []
    requires |rest| > 0 ==> |lack| <= |Encode(rest[|rest| - 1])|
    ensures |rest| <= unfinished
  {
    AllArrived(left, lack, coming, transit);
    if |rest| > unfinished {
      OnlyLast(left, lack, rest);
    }
  }

  lemma AllArrived(left: Bytes, lack: Bytes, coming: Bytes, transit: Bytes)
    requires coming == [] && transit == []
    ensures left + (coming + (transit + lack)) == left + lack
  {
  }
}
