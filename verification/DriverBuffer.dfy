/** The double buffer of the MySQL driver: reads across growth, compaction and switching. */
module DriverBuffer {
  import opened Prelude

  const DEFAULT_SIZE := 4096
  const MAX_CACHED := 256 * 1024

  datatype Status = Fine | EndOfFile | Broken

  /** The peer's bytes still to come, and how the reads will end; how many bytes each brings is not determined. */
  class NetConn {
    var rest: Bytes
    var outcomes: seq<Status>

    constructor (rest: Bytes, outcomes: seq<Status>)
      ensures this.rest == rest && this.outcomes == outcomes
    {
      this.rest := rest;
      this.outcomes := outcomes;
    }

    /** A read into `a` from position `from` on.  `None` stands for a read that never returns. */
    method Read(a: array<byte>, from: nat) returns (r: Option<Status>, n: nat)
      requires from <= a.Length
      modifies this, a
      ensures from + n <= a.Length && a[..from] == old(a[..from])
      ensures old(rest) == a[from..from + n] + rest
      ensures r.None? ==> |old(outcomes)| == 0 && outcomes == old(outcomes) && n == 0
      ensures r.Some? ==> |old(outcomes)| > 0 && r.value == old(outcomes)[0] && outcomes == old(outcomes)[1..]
    {
      if |outcomes| == 0 {
        assert a[from..from] + rest == rest;
        return None, 0;
      }
      var room := if |rest| <= a.Length - from then |rest| else a.Length - from;
      n :| 0 <= n <= room;
      forall i | from <= i < from + n {
        a[i] := rest[i - from];
      }
      assert a[from..from + n] == rest[..n];
      rest := rest[n..];
      r := Some(outcomes[0]);
      outcomes := outcomes[1..];
    }
  }

  /** `after` is what is left of `before` once its first outcomes are used, all of them but the last fine. */
  ghost predicate Used(before: seq<Status>, after: seq<Status>) {
    && |after| <= |before|
    && after == before[|before| - |after|..]
    && forall i | 0 <= i < |before| - |after| - 1 :: before[i].Fine?
  }

  /** The outcome of the last read, if there was one. */
  ghost function Last(before: seq<Status>, after: seq<Status>): Option<Status> {
    if |after| < |before| then Some(before[|before| - |after| - 1]) else None
  }

  /**
   * Why a fill was given up: a read that failed; the peer's end with too few bytes (`short`); or, with too few
   * bytes, reads that were all fine and then one that never returned.
   */
  ghost predicate GivenUp(before: seq<Status>, after: seq<Status>, short: bool) {
    Used(before, after) &&
    match Last(before, after)
    case Some(Broken) => true
    case Some(EndOfFile) => short
    case Some(Fine) => short && |after| == 0
    case None => short && |after| == 0
  }

  /** The last read of a fill that worked did not fail. */
  ghost predicate Served(before: seq<Status>, after: seq<Status>) {
    Used(before, after) && Last(before, after) in {Some(Fine), Some(EndOfFile)}
  }

  /** What is left after any number of reads. */
  ghost predicate LeftOf(after: seq<Status>, before: seq<Status>) {
    |after| <= |before| && after == before[|before| - |after|..]
  }

  lemma LeftOfLeft(a: seq<Status>, b: seq<Status>, c: seq<Status>)
    requires LeftOf(a, b) && LeftOf(b, c)
    ensures LeftOf(a, c)
  {
    var j, k := |c| - |b|, |b| - |a|;
    assert c[j..][k..] == c[j + k..];
  }

  lemma UsedMore(before: seq<Status>, mid: seq<Status>)
    requires Used(before, mid) && Last(before, mid) in {None, Some(Fine)} && |mid| > 0
    ensures Used(before, mid[1..]) && Last(before, mid[1..]) == Some(mid[0])
  {
  }

  class Buffer {
    const nc: NetConn
    var buf: array<byte>
    var idx: nat
    var length: nat
    var dbuf0: array?<byte>
    var dbuf1: array?<byte>
    var flipcnt: nat

    /** The array that the next fill uses. */
    function Target(): array?<byte>
      reads this
    {
      if flipcnt % 2 == 0 then dbuf0 else dbuf1
    }

    function Other(): array?<byte>
      reads this
    {
      if flipcnt % 2 == 0 then dbuf1 else dbuf0
    }

    ghost predicate Valid()
      reads this
    {
      && idx + length <= buf.Length
      && (dbuf0 != dbuf1 || dbuf0 == null)
    }

    /** The bytes received and not yet handed out. */
    ghost function Unread(): Bytes
      reads this, buf
      requires Valid()
    {
      buf[idx..idx + length]
    }

    /** Everything still to be handed out. */
    ghost function Stream(): Bytes
      reads this, buf, nc
      requires Valid()
    {
      Unread() + nc.rest
    }

    constructor (nc: NetConn)
      ensures Valid() && this.nc == nc && Unread() == [] && fresh(buf) && buf == dbuf0 && dbuf1 == null && flipcnt == 0
    {
      this.nc := nc;
      var fg := new byte[DEFAULT_SIZE];
      buf, idx, length := fg, 0, 0;
      dbuf0, dbuf1, flipcnt := fg, null, 0;
    }

    /** Delayed: the switch happens at the next fill. */
    method Flip()
      modifies this`flipcnt
      ensures flipcnt == old(flipcnt) + 1
    {
      flipcnt := flipcnt + 1;
    }

    /** A target large enough, kept for later use unless it is too large. */
    method Grow(need: nat) returns (dest: array<byte>)
      requires Valid() && need > 0
      modifies this`dbuf0, this`dbuf1
      ensures Valid() && dest.Length >= need
      ensures fresh(dest) || dest == old(Target())
      ensures Other() == old(Other())
      ensures dest == Target() || (fresh(dest) && Target() == old(Target()))
    {
      var target := Target();
      if target != null && need <= target.Length {
        return target;
      }
      dest := new byte[(need / DEFAULT_SIZE + 1) * DEFAULT_SIZE];
      if dest.Length <= MAX_CACHED {
        if flipcnt % 2 == 0 { dbuf0 := dest; } else { dbuf1 := dest; }
      }
    }

    /** The unread bytes go to the front of the target. */
    method MoveTo(dest: array<byte>)
      requires Valid() && length <= dest.Length
      modifies this`buf, this`idx, dest
      ensures buf == dest && idx == 0 && Valid() && Unread() == old(Unread())
    {
      var n, at, from := length, idx, buf;
      forall i | 0 <= i < n {
        dest[i] := from[at + i];
      }
      buf := dest;
      idx := 0;
    }

    /**
     * Reads until at least `need` bytes are there.  Without success the connection is given up; the unread
     * bytes are still there then.
     */
    method Fill(need: nat) returns (ok: bool)
      requires Valid() && length < need
      modifies this`buf, this`idx, this`length, this`dbuf0, this`dbuf1, nc, buf, Target()
      ensures Valid() && (ok ==> length >= need)
      ensures ok ==> Stream() == old(Stream())
      ensures !ok ==> Unread() == old(Unread())
      ensures ok ==> Served(old(nc.outcomes), nc.outcomes)
      ensures !ok ==> GivenUp(old(nc.outcomes), nc.outcomes, old(|Stream()|) - |nc.rest| < need)
      ensures buf == Target() || (buf != Other() && fresh(buf))
      ensures Other() == old(Other())
      ensures Target() == old(Target()) || fresh(Target())
      ensures old(buf != Target()) ==> old(buf)[..] == old(buf[..])
    {
      var dest := Grow(need);
      MoveTo(dest);
      ok := ReadInto(need);
    }

    /** One read behind the first `n` bytes of the buffer. */
    method ReadOnce(n: nat, ghost all: Bytes) returns (r: Option<Status>, n': nat)
      requires n <= buf.Length && Joined(buf[..n], nc.rest, all)
      modifies nc, buf
      ensures n <= n' <= buf.Length && buf[..n] == old(buf[..n]) && Joined(buf[..n'], nc.rest, all)
      ensures r.None? ==> |old(nc.outcomes)| == 0 && nc.outcomes == old(nc.outcomes) && n' == n
      ensures r.Some? ==> |old(nc.outcomes)| > 0 && r.value == old(nc.outcomes)[0] && nc.outcomes == old(nc.outcomes)[1..]
    {
      ghost var was, rest := buf[..n], nc.rest;
      var nn: nat;
      r, nn := nc.Read(buf, n);
      n' := n + nn;
      JoinedIs(was, rest, all);
      Grown(buf[..], n, nn, was, rest, nc.rest);
      assert buf[..n'] == buf[..][..n'];
      JoinedIs(buf[..n'], nc.rest, all);
    }

    method ReadInto(need: nat) returns (ok: bool)
      requires Valid() && length < need <= buf.Length && idx == 0
      modifies this`length, nc, buf
      ensures Valid() && (ok ==> length >= need && Stream() == old(Stream()))
      ensures !ok ==> Unread() == old(Unread())
      ensures ok ==> Served(old(nc.outcomes), nc.outcomes)
      ensures !ok ==> GivenUp(old(nc.outcomes), nc.outcomes, old(|Stream()|) - |nc.rest| < need)
    {
      var n := length;
      ghost var all, start := Stream(), Unread();
      assert buf[..n] == start;
      JoinedIs(buf[..n], nc.rest, all);
      while true
        invariant |start| == old(length) == length <= n <= buf.Length && n < need
        invariant Joined(buf[..n], nc.rest, all) && buf[..length] == start
        invariant Used(old(nc.outcomes), nc.outcomes) && Last(old(nc.outcomes), nc.outcomes) in {None, Some(Fine)}
        decreases |nc.outcomes|
      {
        if |nc.outcomes| > 0 {
          UsedMore(old(nc.outcomes), nc.outcomes);
        }
        var status, more := ReadOnce(n, all);
        n := more;
        JoinedLength(buf[..n], nc.rest, all);
        JoinedIs(buf[..n], nc.rest, all);
        match status {
          case None => return false;
          case Some(Fine) =>
            if n >= need {
              length := n;
              return true;
            }
          case Some(EndOfFile) =>
            if n >= need {
              length := n;
              return true;
            }
            return false;
          case Some(Broken) => return false;
        }
      }
    }

    /** The next `need` bytes: a window of `buf` that starts at the position returned. */
    method ReadNext(need: nat) returns (r: Option<nat>)
      requires Valid()
      modifies this`buf, this`idx, this`length, this`dbuf0, this`dbuf1, nc, buf, Target()
      ensures Valid() && (buf == old(buf) || buf == Target() || fresh(buf))
      ensures Other() == old(Other()) && (Target() == old(Target()) || fresh(Target()))
      ensures old(buf != Other()) ==> buf != Other()
      ensures r.Some? ==> r.value + need <= buf.Length && buf[r.value..r.value + need] + Stream() == old(Stream())
      ensures LeftOf(nc.outcomes, old(nc.outcomes))
      ensures r.None? ==> old(length) < need && GivenUp(old(nc.outcomes), nc.outcomes, old(|Stream()|) - |nc.rest| < need)
      ensures old(buf != Target()) ==> old(buf)[..] == old(buf[..])
    {
      if length < need {
        var ok := Fill(need);
        if !ok {
          return None;
        }
      }
      var offset := Take(need);
      return Some(offset);
    }

    method Take(need: nat) returns (offset: nat)
      requires Valid() && need <= length
      modifies this`idx, this`length
      ensures Valid() && offset + need <= buf.Length
      ensures buf[offset..offset + need] + Stream() == old(Stream())
    {
      ghost var whole, rest := buf[..], nc.rest;
      ghost var first, later := whole[idx..idx + need], whole[idx + need..idx + length];
      assert Unread() == whole[idx..idx + length];
      Taken(whole, idx, length, need, rest);
      offset := idx;
      idx := idx + need;
      length := length - need;
      assert buf[offset..offset + need] == first;
      assert Stream() == later + rest;
    }
  }

  /** What was read came off the front of what was to come. */
  lemma Grown(a: Bytes, n: nat, nn: nat, was: Bytes, before: Bytes, after: Bytes)
    requires n + nn <= |a| && a[..n] == was && before == a[n..n + nn] + after
    ensures a[..n + nn] + after == was + before
  {
    assert a[..n + nn] == a[..n] + a[n..n + nn];
  }

  lemma Taken(w: Bytes, at: nat, len: nat, need: nat, rest: Bytes)
    requires need <= len && at + len <= |w|
    ensures w[at..at + need] + (w[at + need..at + len] + rest) == w[at..at + len] + rest
  {
    var a, b := w[at..at + need], w[at + need..at + len];
    assert w[at..at + len] == a + b;
    assert a + b + rest == a + (b + rest);
  }

  function Flat(pieces: seq<Bytes>): Bytes {
    if |pieces| == 0 then [] else Flat(pieces[..|pieces| - 1]) + pieces[|pieces| - 1]
  }

  lemma Consecutive(front: Bytes, piece: Bytes, stream: Bytes, stream': Bytes, all: Bytes)
    requires piece + stream' == stream && front + stream == all
    ensures front + piece + stream' == all
  {
    assert front + (piece + stream') == front + piece + stream';
  }

  /** A read, after a flip or not, copied out. */
  method ReadPiece(b: Buffer, need: nat, flip: bool) returns (piece: Option<Bytes>)
    requires b.Valid()
    modifies b, b.nc, b.buf, b.dbuf0, b.dbuf1
    ensures b.Valid()
    ensures b.buf == old(b.buf) || b.buf == old(b.dbuf0) || b.buf == old(b.dbuf1) || fresh(b.buf)
    ensures (b.dbuf0 == old(b.dbuf0) || fresh(b.dbuf0)) && (b.dbuf1 == old(b.dbuf1) || fresh(b.dbuf1))
    ensures piece.Some? ==> |piece.value| == need && piece.value + b.Stream() == old(b.Stream())
    ensures piece.None? ==> GivenUp(old(b.nc.outcomes), b.nc.outcomes, old(|b.Stream()|) - |b.nc.rest| < need)
    ensures LeftOf(b.nc.outcomes, old(b.nc.outcomes))
  {
    if flip {
      b.Flip();
    }
    var r := b.ReadNext(need);
    if r.None? {
      return None;
    }
    return Some(b.buf[r.value..r.value + need]);
  }

  lemma FlatSnoc(pieces: seq<Bytes>, piece: Bytes)
    ensures Flat(pieces + [piece]) == Flat(pieces) + piece
  {
    assert (pieces + [piece])[..|pieces|] == pieces;
  }

  /** Each piece has the length asked for. */
  ghost predicate Lengths(pieces: seq<Bytes>, needs: seq<nat>) {
    |pieces| <= |needs| && forall i | 0 <= i < |pieces| :: |pieces[i]| == needs[i]
  }

  /** The pieces read are the first ones asked for, and the start of the stream. */
  ghost predicate Pieced(pieces: seq<Bytes>, needs: seq<nat>, rest: Bytes, all: Bytes) {
    Lengths(pieces, needs) && Flat(pieces) + rest == all
  }

  lemma OnePiece(pieces: seq<Bytes>, needs: seq<nat>, piece: Bytes, before: Bytes, after: Bytes, all: Bytes)
    requires Pieced(pieces, needs, before, all) && |pieces| < |needs| && |piece| == needs[|pieces|] && piece + after == before
    ensures Pieced(pieces + [piece], needs, after, all)
  {
    Consecutive(Flat(pieces), piece, before, after, all);
    FlatSnoc(pieces, piece);
  }

  /**
   * Successive reads, with flips at any points between them: the pieces are the stream, in order.  When a read
   * gives up, so it does for a cause in the outcomes that were left then, `before`; the pieces read until then are
   * the start of the stream.
   */
  method ReadPieces(b: Buffer, needs: seq<nat>, flips: seq<bool>) returns (pieces: seq<Bytes>, ok: bool, ghost before: seq<Status>)
    requires b.Valid() && |flips| == |needs|
    modifies b, b.nc, b.buf, b.dbuf0, b.dbuf1
    ensures b.Valid() && Lengths(pieces, needs)
    ensures ok ==> |pieces| == |needs| && Flat(pieces) + b.Stream() == old(b.Stream())
    ensures !ok ==> |pieces| < |needs| && Flat(pieces) <= old(b.Stream()) && LeftOf(before, old(b.nc.outcomes))
    ensures !ok ==> GivenUp(before, b.nc.outcomes, old(|b.Stream()|) - |Flat(pieces)| - |b.nc.rest| < needs[|pieces|])
  {
    pieces, ok := [], true;
    before := b.nc.outcomes;
    ghost var all, stream := b.Stream(), b.Stream();
    while ok && |pieces| < |needs|
      invariant b.Valid()
      invariant b.buf == old(b.buf) || b.buf == old(b.dbuf0) || b.buf == old(b.dbuf1) || fresh(b.buf)
      invariant (b.dbuf0 == old(b.dbuf0) || fresh(b.dbuf0)) && (b.dbuf1 == old(b.dbuf1) || fresh(b.dbuf1))
      invariant Pieced(pieces, needs, stream, all) && LeftOf(before, old(b.nc.outcomes))
      invariant ok ==> stream == b.Stream() && before == b.nc.outcomes
      invariant !ok ==> |pieces| < |needs| && GivenUp(before, b.nc.outcomes, |stream| - |b.nc.rest| < needs[|pieces|])
      decreases ok, |needs| - |pieces|
    {
      var r := ReadPiece(b, needs[|pieces|], flips[|pieces|]);
      if r.None? {
        ok := false;
      } else {
        OnePiece(pieces, needs, r.value, stream, b.Stream(), all);
        LeftOfLeft(b.nc.outcomes, before, old(b.nc.outcomes));
        pieces, stream, before := pieces + [r.value], b.Stream(), b.nc.outcomes;
      }
    }
    StartOf(Flat(pieces), stream, all);
  }

  lemma StartOf(front: Bytes, rest: Bytes, all: Bytes)
    requires front + rest == all
    ensures front <= all && |rest| == |all| - |front|
  {
  }

  /** `front` and then `back` are `all`; behind a quantifier, so that it is looked into only where asked for. */
  ghost predicate Joined(front: Bytes, back: Bytes, all: Bytes) {
    forall u | u == front :: Joins(u, back, all)
  }

  ghost predicate Joins(front: Bytes, back: Bytes, all: Bytes) {
    front + back == all
  }

  lemma JoinedIs(front: Bytes, back: Bytes, all: Bytes)
    ensures Joined(front, back, all) <==> front + back == all
  {
    assert Joins(front, back, all) <==> front + back == all;
  }

  lemma JoinedOn(first: Bytes, second: Bytes, rest: Bytes, mid: Bytes, all: Bytes)
    requires Joined(first, mid, all) && second + rest == mid
    ensures Joined(first + second, rest, all)
  {
    JoinedIs(first, mid, all);
    JoinedIs(first + second, rest, all);
    assert first + (second + rest) == first + second + rest;
  }

  /** `ReadNext` with the bytes named. */
  method ReadWindow(b: Buffer, need: nat) returns (at: Option<nat>, ghost window: Bytes)
    requires b.Valid()
    modifies b`buf, b`idx, b`length, b`dbuf0, b`dbuf1, b.nc, b.buf, b.Target()
    ensures b.Valid() && (b.buf == old(b.buf) || b.buf == b.Target() || fresh(b.buf))
    ensures b.Other() == old(b.Other()) && (b.Target() == old(b.Target()) || fresh(b.Target()))
    ensures old(b.buf != b.Other()) ==> b.buf != b.Other()
    ensures at.Some? ==> |window| == need && at.value + need <= b.buf.Length && b.buf[at.value..at.value + need] == window
    ensures at.Some? ==> Joined(window, b.Stream(), old(b.Stream()))
    ensures LeftOf(b.nc.outcomes, old(b.nc.outcomes))
    ensures at.None? ==> GivenUp(old(b.nc.outcomes), b.nc.outcomes, old(|b.Stream()|) - |b.nc.rest| < need)
    ensures old(b.buf != b.Target()) ==> old(b.buf)[..] == old(b.buf[..])
  {
    at := b.ReadNext(need);
    window := if at.Some? then b.buf[at.value..at.value + need] else [];
    JoinedIs(window, b.Stream(), old(b.Stream()));
  }

  /**
   * One flip between two reads: the bytes of the first are still where they were after the second, even if
   * that has to fill a buffer, and even if it gives up.  `mid` are the outcomes left after the first read.
   */
  method ReadFlipRead(b: Buffer, need1: nat, need2: nat)
      returns (arr: array<byte>, at: Option<nat>, ghost first: Bytes, next: Option<nat>, ghost second: Bytes, ghost mid: seq<Status>)
    requires b.Valid() && b.buf != b.Other()
    modifies b, b.nc, b.buf, b.dbuf0, b.dbuf1
    ensures b.Valid() && LeftOf(mid, old(b.nc.outcomes)) && (at.None? ==> next.None?)
    ensures at.Some? ==> |first| == need1 && at.value + need1 <= arr.Length && arr[at.value..at.value + need1] == first
    ensures next.Some? ==> next.value + need2 <= b.buf.Length && b.buf[next.value..next.value + need2] == second
    ensures next.Some? ==> Joined(first + second, b.Stream(), old(b.Stream()))
    ensures at.None? ==> GivenUp(old(b.nc.outcomes), mid, old(|b.Stream()|) - |b.nc.rest| < need1)
    ensures at.Some? && next.None? ==> GivenUp(mid, b.nc.outcomes, old(|b.Stream()|) - need1 - |b.nc.rest| < need2)
  {
    next, second := None, [];
    at, first := ReadWindow(b, need1);
    arr := b.buf;
    mid := b.nc.outcomes;
    if at.Some? {
      b.Flip();
      next, second := ReadAfterFlip(b, need2, arr, at.value, first, old(b.Stream()));
    }
  }

  method ReadAfterFlip(b: Buffer, need: nat, ghost arr: array<byte>, ghost at: nat, ghost first: Bytes, ghost all: Bytes)
      returns (next: Option<nat>, ghost second: Bytes)
    requires b.Valid() && b.buf == arr && arr != b.Target() && Joined(first, b.Stream(), all)
    requires at + |first| <= arr.Length && arr[at..at + |first|] == first
    modifies b, b.nc, b.buf, b.dbuf0, b.dbuf1
    ensures b.Valid() && arr[at..at + |first|] == first
    ensures next.Some? ==> next.value + need <= b.buf.Length && b.buf[next.value..next.value + need] == second
    ensures next.Some? ==> Joined(first + second, b.Stream(), all)
    ensures next.None? ==> GivenUp(old(b.nc.outcomes), b.nc.outcomes, |all| - |first| - |b.nc.rest| < need)
  {
    ghost var whole, mid := arr[..], b.Stream();
    assert first == whole[at..at + |first|];
    JoinedLength(first, mid, all);
    next, second := ReadWindow(b, need);
    assert arr[..] == whole;
    if next.Some? {
      JoinedIs(second, b.Stream(), mid);
      JoinedOn(first, second, b.Stream(), mid, all);
    }
  }

  lemma JoinedLength(front: Bytes, back: Bytes, all: Bytes)
    requires Joined(front, back, all)
    ensures |back| == |all| - |front|
  {
    JoinedIs(front, back, all);
  }
}
