/** The router's path cleaner, against a specification on path components. */
module CleanPath {
  import opened Prelude

  const SLASH: byte := 0x2F
  const DOT: byte := 0x2E

  // ----- Specification -----

  /** The components between slashes; there is always at least one. */
  function Split(p: Bytes): (cs: seq<Bytes>)
    ensures |cs| > 0
  {
    if |p| == 0 then [[]]
    else if p[0] == SLASH then [[]] + Split(p[1..])
    else var rest := Split(p[1..]); [[p[0]] + rest[0]] + rest[1..]
  }

  /** One component on the stack of components that remain. */
  function Resolve1(stack: seq<Bytes>, c: Bytes): seq<Bytes> {
    if c == [] || c == [DOT] then stack
    else if c == [DOT, DOT] then (if |stack| == 0 then stack else stack[..|stack| - 1])
    else stack + [c]
  }

  function Resolve(cs: seq<Bytes>, stack: seq<Bytes>): seq<Bytes>
    decreases |cs|
  {
    if |cs| == 0 then stack else Resolve(cs[1..], Resolve1(stack, cs[0]))
  }

  /** The components of the cleaned path. */
  function Components(p: Bytes): seq<Bytes> {
    Resolve(Split(p), [])
  }

  function Last(p: Bytes): Bytes {
    var cs := Split(p); cs[|cs| - 1]
  }

  /** The last component is empty or a dot: the path denotes a directory. */
  predicate Trailing(p: Bytes) {
    Last(p) == [] || Last(p) == [DOT]
  }

  function Join(cs: seq<Bytes>): Bytes {
    if |cs| == 0 then [] else Join(cs[..|cs| - 1]) + [SLASH] + cs[|cs| - 1]
  }

  /** The components with a slash before each, or just a slash. */
  function Show(cs: seq<Bytes>): Bytes {
    if |cs| == 0 then [SLASH] else Join(cs)
  }

  function Clean(p: Bytes): Bytes {
    var cs := Components(p);
    if |cs| > 0 && Trailing(p) then Show(cs) + [SLASH] else Show(cs)
  }

  // ----- Components of a suffix -----

  ghost predicate NoSlash(s: Bytes) {
    forall i | 0 <= i < |s| :: s[i] != SLASH
  }

  lemma {:induction false} SplitWord(w: Bytes, rest: Bytes)
    requires NoSlash(w)
    ensures Split(w) == [w]
    ensures Split(w + [SLASH] + rest) == [w] + Split(rest)
    decreases |w|
  {
    var p := w + [SLASH] + rest;
    if |w| == 0 {
      assert p[1..] == rest;
    } else {
      SplitWord(w[1..], rest);
      assert p[1..] == w[1..] + [SLASH] + rest;
      assert [w[0]] + w[1..] == w;
    }
  }

  /** What remains to be done from position `r` on. */
  ghost function Work(p: Bytes, r: nat, stack: seq<Bytes>): seq<Bytes> {
    if r <= |p| then Resolve(Split(p[r..]), stack) else stack
  }

  lemma WorkWord(p: Bytes, r: nat, e: nat, stack: seq<Bytes>)
    requires r <= e <= |p| && NoSlash(p[r..e]) && (e < |p| ==> p[e] == SLASH)
    ensures Work(p, r, stack) == Work(p, e + 1, Resolve1(stack, p[r..e])) == Work(p, e, Resolve1(stack, p[r..e]))
  {
    var w := p[r..e];
    var stack' := Resolve1(stack, w);
    if e < |p| {
      assert p[r..] == w + [SLASH] + p[e + 1..];
      SplitWord(w, p[e + 1..]);
      assert Split(p[r..])[1..] == Split(p[e + 1..]);
      assert p[e..] == [] + [SLASH] + p[e + 1..];
      SplitWord([], p[e + 1..]);
      assert Split(p[e..])[1..] == Split(p[e + 1..]);
    } else {
      assert p[r..] == w && p[e..] == [];
      SplitWord(w, []);
      ResolveOne(w, stack);
      ResolveOne([], stack');
    }
  }

  lemma ResolveOne(w: Bytes, stack: seq<Bytes>)
    ensures Resolve([w], stack) == Resolve1(stack, w)
  {
    var one := [w];
    assert one[1..] == [];
  }

  lemma {:induction false} SplitsAtSlash(p: Bytes, i: nat)
    requires i < |p| && p[i] == SLASH
    ensures |Split(p)| > 1
    decreases |p|
  {
    if i > 0 {
      assert p[1..][i - 1] == SLASH;
      SplitsAtSlash(p[1..], i - 1);
    }
  }

  lemma {:induction false} LastOfSuffix(p: Bytes, r: nat)
    requires r <= |p| && (r == 0 || p[r - 1] == SLASH) && NoSlash(p[r..])
    ensures Last(p) == p[r..]
    decreases r
  {
    if r == 0 {
      assert p[0..] == p;
      SplitWord(p, []);
    } else {
      assert p[1..][r - 1..] == p[r..];
      if r > 1 {
        assert p[1..][r - 2] == SLASH;
        SplitsAtSlash(p[1..], r - 2);
      }
      LastOfSuffix(p[1..], r - 1);
    }
  }

  // ----- The stack of components -----

  predicate Word(c: Bytes) {
    |c| > 0 && c != [DOT] && c != [DOT, DOT] && forall i | 0 <= i < |c| :: c[i] != SLASH
  }

  /** What may be on the stack: proper names only. */
  type Names = cs: seq<Bytes> | AllWords(cs)

  predicate AllWords(cs: seq<Bytes>) {
    forall i | 0 <= i < |cs| :: Word(cs[i])
  }

  function Init(cs: Names): Names
    requires |cs| > 0
  {
    cs[..|cs| - 1]
  }

  lemma PushName(cs: Names, c: Bytes)
    requires Word(c)
    ensures AllWords(Resolve1(cs, c))
    ensures Show(Resolve1(cs, c)) == (if |cs| > 0 then Show(cs) + [SLASH] else Show(cs)) + c
  {
    var r := Resolve1(cs, c);
    assert r == cs + [c] && r[..|r| - 1] == cs && r[|r| - 1] == c;
    assert Join(r) == Join(cs) + [SLASH] + c;
  }

  lemma ShowLength(cs: Names)
    ensures |Show(cs)| > 1 <==> |cs| > 0
    ensures |Show(cs)| > 0 && Show(cs)[0] == SLASH
  {
    if |cs| > 0 {
      assert Word(cs[|cs| - 1]);
      JoinHead(cs);
    }
  }

  lemma {:induction false} JoinHead(cs: seq<Bytes>)
    requires |cs| > 0
    ensures |Join(cs)| > 0 && Join(cs)[0] == SLASH
    decreases |cs|
  {
    if |cs| > 1 {
      JoinHead(cs[..|cs| - 1]);
    }
  }

  /** The text that `..` removes: from its end back to a slash or to position 1. */
  lemma BackTrack(cs: Names, w: nat)
    requires |cs| > 0 && |Show(Init(cs))| <= w < |Show(cs)|
    requires w <= 1 || Show(cs)[w] == SLASH
    ensures w == |Show(Init(cs))| && Show(cs)[..w] == Show(Init(cs))
  {
    var c := cs[|cs| - 1];
    var front := Init(cs);
    assert Word(c);
    ShowLength(front);
    assert Show(cs) == Join(front) + [SLASH] + c;
    assert forall k | |Join(front)| < k < |Show(cs)| :: Show(cs)[k] == c[k - |Join(front)| - 1];
    if |front| == 0 {
      assert Show(cs)[..1] == [SLASH];
    }
  }

  lemma PopShorter(cs: Names)
    requires |cs| > 0
    ensures |Show(Init(cs))| < |Show(cs)|
    ensures Resolve1(cs, [DOT, DOT]) == Init(cs)
  {
    assert Word(cs[|cs| - 1]);
  }

  // ----- The cleaner -----

  /** The `w` bytes written so far; without a buffer they are those of the path itself. */
  function Written(buf: array?<byte>, s: Bytes, w: nat): Bytes
    requires w <= (if buf == null then |s| else buf.Length)
    reads buf
  {
    if buf == null then s[..w] else buf[..w]
  }

  method BufApp(buf: array?<byte>, s: Bytes, w: nat, c: byte) returns (b: array?<byte>)
    requires w < if buf == null then |s| else buf.Length
    modifies buf
    ensures b == buf || (buf == null && fresh(b))
    ensures b != null ==> b.Length == (if buf == null then |s| else buf.Length)
    ensures Written(b, s, w + 1) == old(Written(buf, s, w)) + [c]
  {
    b := buf;
    if b == null {
      if s[w] == c {
        return;
      }
      b := new byte[|s|];
      var i := 0;
      while i < w
        invariant 0 <= i <= w
        invariant b[..i] == s[..i]
      {
        b[i] := s[i];
        i := i + 1;
      }
    }
    b[w] := c;
    assert b[..w + 1] == b[..w] + [c];
  }

  /** The buffer, or the path while there is none, holds exactly `s` before position `w`. */
  ghost predicate Wrote(buf: array?<byte>, p: Bytes, w: nat, off: nat, s: Bytes)
    reads buf
  {
    (if buf == null then off == 0 else buf.Length == |p| + off) && w <= |p| + off && Written(buf, p, w) == s
  }

  /** The `..` element: the write position moves back to the previous slash. */
  method BackUp(buf: array?<byte>, p: Bytes, w0: nat, ghost off: nat, ghost cs: Names)
      returns (w: nat, ghost cs': Names)
    requires Wrote(buf, p, w0, off, Show(cs))
    ensures cs' == Resolve1(cs, [DOT, DOT])
    ensures w <= w0 && Wrote(buf, p, w, off, Show(cs'))
  {
    w, cs' := w0, cs;
    ShowLength(cs);
    if w > 1 {
      PopShorter(cs);
      cs' := Init(cs);
      w := w - 1;
      if buf == null {
        while w > 1 && p[w] != SLASH
          invariant |Show(Init(cs))| <= w < w0
        {
          BackTrackMore(cs, w);
          w := w - 1;
        }
      } else {
        while w > 1 && buf[w] != SLASH
          invariant |Show(Init(cs))| <= w < w0
        {
          BackTrackMore(cs, w);
          w := w - 1;
        }
      }
      BackTrack(cs, w);
      assert Written(buf, p, w) == Show(cs)[..w];
    }
  }

  lemma BackTrackMore(cs: Names, w: nat)
    requires |cs| > 0 && |Show(Init(cs))| <= w < |Show(cs)|
    requires w > 1 && Show(cs)[w] != SLASH
    ensures |Show(Init(cs))| < w
  {
    assert Word(cs[|cs| - 1]);
  }

  /** A real element: a slash if something stands before it, then its bytes. */
  method CopyElement(buf0: array?<byte>, p: Bytes, w0: nat, r0: nat, ghost off: nat, ghost cs: Names)
      returns (buf: array?<byte>, w: nat, r: nat, ghost cs': Names)
    requires IsElement(p, r0)
    requires w0 <= r0 + off && (|cs| > 0 ==> w0 < r0 + off)
    requires Wrote(buf0, p, w0, off, Show(cs))
    modifies buf0
    ensures buf == buf0 || fresh(buf)
    ensures r0 < r <= |p| && Word(p[r0..r]) && (r < |p| ==> p[r] == SLASH)
    ensures w <= r + off
    ensures cs' == Resolve1(cs, p[r0..r]) && Wrote(buf, p, w, off, Show(cs'))
  {
    buf, w := buf0, w0;
    ShowLength(cs);
    if w > 1 {
      buf := BufApp(buf, p, w, SLASH);
      w := w + 1;
    }
    buf, w, r := CopyBytes(buf, p, w, r0, off, if |cs| > 0 then Show(cs) + [SLASH] else Show(cs));
    WordIfElement(p, r0, r);
    PushName(cs, p[r0..r]);
    cs' := Resolve1(cs, p[r0..r]);
  }

  /** No earlier case of the loop applies: neither a slash nor a dot nor two dots come next. */
  predicate IsElement(p: Bytes, r: nat) {
    && r < |p| && p[r] != SLASH
    && (p[r] == DOT ==>
          && r + 1 < |p| && p[r + 1] != SLASH
          && (p[r + 1] == DOT ==> r + 2 < |p| && p[r + 2] != SLASH))
  }

  lemma WordIfElement(p: Bytes, r: nat, e: nat)
    requires IsElement(p, r) && r < e <= |p| && NoSlash(p[r..e]) && (e < |p| ==> p[e] == SLASH)
    ensures Word(p[r..e])
  {
    var c := p[r..e];
    assert c[0] == p[r] && (|c| == 2 ==> c[1] == p[r + 1]);
  }

  method CopyBytes(buf0: array?<byte>, p: Bytes, w0: nat, r0: nat, ghost off: nat, ghost front: Bytes)
      returns (buf: array?<byte>, w: nat, r: nat)
    requires r0 < |p| && p[r0] != SLASH && w0 <= r0 + off
    requires Wrote(buf0, p, w0, off, front)
    modifies buf0
    ensures buf == buf0 || fresh(buf)
    ensures r0 < r <= |p| && NoSlash(p[r0..r]) && (r < |p| ==> p[r] == SLASH)
    ensures w <= r + off
    ensures Wrote(buf, p, w, off, front + p[r0..r])
  {
    buf, w, r := buf0, w0, r0;
    assert front + p[r0..r0] == front;
    while r < |p| && p[r] != SLASH
      invariant r0 <= r <= |p| && NoSlash(p[r0..r])
      invariant buf == buf0 || fresh(buf)
      invariant w <= r + off
      invariant Wrote(buf, p, w, off, front + p[r0..r])
    {
      buf := BufApp(buf, p, w, p[r]);
      Extend(p, r0, r, front);
      w, r := w + 1, r + 1;
    }
  }

  lemma Extend(p: Bytes, r0: nat, r: nat, front: Bytes)
    requires r0 <= r < |p|
    ensures front + p[r0..r + 1] == front + p[r0..r] + [p[r]]
    ensures NoSlash(p[r0..r]) && p[r] != SLASH ==> NoSlash(p[r0..r + 1])
  {
    assert p[r0..r + 1] == p[r0..r] + [p[r]];
  }

  // ----- One turn of the loop -----

  /** The position is the start of a component, or the end of one. */
  ghost predicate Boundary(p: Bytes, r: nat) {
    r == 0 || r >= |p| || p[r] == SLASH || p[r - 1] == SLASH
  }

  /** Stated through a bound variable, so that a proof meets `Work` only where it asks for it. */
  ghost predicate Tracks(p: Bytes, r: nat, cs: Names, goal: seq<Bytes>) {
    forall k: nat | k == r :: Work(p, k, cs) == goal
  }

  lemma TrackWord(p: Bytes, r: nat, e: nat, cs: Names, cs': Names, goal: seq<Bytes>)
    requires Tracks(p, r, cs, goal)
    requires r <= e <= |p| && NoSlash(p[r..e]) && (e < |p| ==> p[e] == SLASH)
    requires cs' == Resolve1(cs, p[r..e])
    ensures Tracks(p, e + 1, cs', goal) && Tracks(p, e, cs', goal)
  {
    WorkWord(p, r, e, cs);
  }

  ghost predicate IsDir(p: Bytes, dir: bool) {
    forall q | q == p :: Trailing(q) == dir
  }

  lemma DirAt(p: Bytes, dir: bool, r: nat)
    requires IsDir(p, dir) && r <= |p| && (r == 0 || p[r - 1] == SLASH)
    ensures r == |p| ==> dir
    ensures r + 1 == |p| && p[r] == DOT ==> dir
    ensures r + 2 == |p| && p[r] == DOT && p[r + 1] == DOT ==> !dir
    ensures r < |p| && Word(p[r..|p|]) ==> !dir
  {
    assert Trailing(p) == dir;
    if NoSlash(p[r..]) {
      LastOfSuffix(p, r);
      assert p[r..] == p[r..|p|];
    }
  }

  /** The variables of the loop between two turns, with the components still standing. */
  datatype Turn = Turn(p: Bytes, goal: seq<Bytes>, dir: bool, r: nat, cs: Names, w: nat, off: nat, trailing: bool)
  {
    /** `cs` is what the components before `r` leave. */
    ghost predicate OnTrack() {
      Boundary(p, r) && r <= |p| + 1 && Tracks(p, r, cs, goal)
    }

    /** Writing never overtakes reading. */
    ghost predicate HasRoom() {
      && w <= r + off
      && (|cs| > 0 && r < |p| && p[r] != SLASH ==> w < r + off)
      && (|cs| > 0 && r >= |p| && trailing ==> w < |p| + off)
    }

    ghost predicate KnowsEnd() {
      && IsDir(p, dir)
      && (r < |p| ==> trailing == (p[|p| - 1] == SLASH))
      && (|cs| > 0 && r >= |p| ==> trailing == dir)
      && (r > |p| ==> !trailing)
    }
  }

  ghost predicate Inv(t: Turn) {
    t.OnTrack() && t.HasRoom() && t.KnowsEnd()
  }

  ghost predicate Between(t: Turn) {
    forall u | u == t :: Inv(u)
  }

  type State = t: Turn | Between(t) ghost witness InitialTurn()

  ghost function InitialTurn(): (t: Turn)
    ensures Between(t)
  {
    Turn([], Work([], 0, []), Trailing([]), 0, [], 0, 0, false)
  }

  lemma AtSlash(t: State) returns (t': State)
    requires t.r < |t.p| && t.p[t.r] == SLASH
    ensures t' == t.(r := t.r + 1)
  {
    assert Inv(t);
    TrackWord(t.p, t.r, t.r, t.cs, t.cs, t.goal);
    if t.r + 1 == |t.p| {
      DirAt(t.p, t.dir, |t.p|);
    }
    t' := t.(r := t.r + 1);
  }

  lemma AtLastDot(t: State) returns (t': State)
    requires t.r + 1 == |t.p| && t.p[t.r] == DOT
    ensures t' == t.(r := t.r + 1, trailing := true)
  {
    assert Inv(t);
    assert t.p[t.r..t.r + 1] == [DOT];
    TrackWord(t.p, t.r, t.r + 1, t.cs, t.cs, t.goal);
    DirAt(t.p, t.dir, t.r);
    t' := t.(r := t.r + 1, trailing := true);
  }

  lemma AtDot(t: State) returns (t': State)
    requires t.r + 1 < |t.p| && t.p[t.r] == DOT && t.p[t.r + 1] == SLASH
    ensures t' == t.(r := t.r + 2)
  {
    assert Inv(t);
    assert t.p[t.r..t.r + 1] == [DOT];
    TrackWord(t.p, t.r, t.r + 1, t.cs, t.cs, t.goal);
    if t.r + 2 == |t.p| {
      DirAt(t.p, t.dir, |t.p|);
    }
    t' := t.(r := t.r + 2);
  }

  lemma AtDotDot(t: State, cs': Names, w': nat) returns (t': State)
    requires t.r + 1 < |t.p| && t.p[t.r] == DOT && t.p[t.r + 1] == DOT
    requires t.r + 2 < |t.p| ==> t.p[t.r + 2] == SLASH
    requires cs' == Resolve1(t.cs, [DOT, DOT]) && w' <= t.w
    ensures t' == t.(r := t.r + 3, cs := cs', w := w')
  {
    assert Inv(t);
    assert t.p[t.r..t.r + 2] == [DOT, DOT];
    TrackWord(t.p, t.r, t.r + 2, t.cs, cs', t.goal);
    if t.r + 2 == |t.p| {
      DirAt(t.p, t.dir, t.r);
    } else if t.r + 3 == |t.p| {
      DirAt(t.p, t.dir, |t.p|);
    }
    t' := t.(r := t.r + 3, cs := cs', w := w');
  }

  lemma AtElement(t: State, e: nat, cs': Names, w': nat) returns (t': State)
    requires t.r < e <= |t.p| && Word(t.p[t.r..e]) && (e < |t.p| ==> t.p[e] == SLASH)
    requires t.p[t.r] != SLASH
    requires cs' == Resolve1(t.cs, t.p[t.r..e]) && w' <= e + t.off
    ensures t' == t.(r := e, cs := cs', w := w')
  {
    assert Inv(t);
    TrackWord(t.p, t.r, e, t.cs, cs', t.goal);
    if e == |t.p| {
      DirAt(t.p, t.dir, t.r);
      assert t.p[t.r..e][e - 1 - t.r] == t.p[e - 1];
    }
    t' := t.(r := e, cs := cs', w := w');
  }

  lemma Start(p: Bytes, off: nat) returns (t: State)
    requires |p| > 0 && off == if p[0] == SLASH then 0 else 1
    ensures t == Turn(p, Components(p), Trailing(p), 1 - off, [], 1, off, |p| > 1 && p[|p| - 1] == SLASH)
  {
    if p[0] == SLASH {
      WorkWord(p, 0, 0, []);
    }
    assert p[0..] == p;
    t := Turn(p, Components(p), Trailing(p), 1 - off, [], 1, off, |p| > 1 && p[|p| - 1] == SLASH);
  }

  lemma Finish(t: State)
    requires t.r >= |t.p| && t.goal == Components(t.p)
    ensures Clean(t.p) == if |t.cs| > 0 && t.trailing then Show(t.cs) + [SLASH] else Show(t.cs)
    ensures |t.cs| > 0 && t.trailing ==> t.w < |t.p| + t.off
  {
    assert Inv(t);
    assert Work(t.p, t.r, t.cs) == t.goal;
    assert Trailing(t.p) == t.dir;
    if t.r == |t.p| {
      assert t.p[t.r..] == [];
      SplitWord([], []);
      ResolveOne([], t.cs);
    }
  }

  method CleanPath(p: Bytes) returns (result: Bytes)
    ensures result == Clean(p)
  {
    if |p| == 0 {
      EmptyPath();
      return [SLASH];
    }
    var n := |p|;
    var buf: array?<byte> := null;
    var r, w := 1, 1;
    ghost var off := 0;
    if p[0] != SLASH {
      r := 0;
      buf := new byte[n + 1];
      buf[0] := SLASH;
      off := 1;
    }
    var trailing := n > 1 && p[n - 1] == SLASH;
    ghost var t := Start(p, off);
    buf, w, trailing, t := Elements(buf, p, r, trailing, t);
    result := Ending(buf, p, w, trailing, t);
  }

  /** The trailing slash, and the result out of the path or the buffer. */
  method Ending(buf0: array?<byte>, p: Bytes, w0: nat, trailing: bool, ghost t: State) returns (result: Bytes)
    requires t.p == p && t.w == w0 && t.trailing == trailing && t.r >= |p| && t.goal == Components(p)
    requires Wrote(buf0, p, w0, t.off, Show(t.cs))
    modifies buf0
    ensures result == Clean(p)
  {
    var buf, w := buf0, w0;
    Finish(t);
    ShowLength(t.cs);
    if trailing && w > 1 {
      buf := BufApp(buf, p, w, SLASH);
      w := w + 1;
    }
    return Written(buf, p, w);
  }

  lemma EmptyPath()
    ensures Clean([]) == [SLASH]
  {
    ResolveOne([], []);
  }

  /** The loop over the elements of the path. */
  method Elements(buf0: array?<byte>, p: Bytes, r0: nat, trailing0: bool, ghost t0: State)
      returns (buf: array?<byte>, w: nat, trailing: bool, ghost t: State)
    requires t0.p == p && t0.r == r0 && t0.w == 1 && t0.trailing == trailing0
    requires Wrote(buf0, p, 1, t0.off, Show(t0.cs))
    modifies buf0
    ensures t == t0.(r := t.r, cs := t.cs, w := w, trailing := trailing) && t.r >= |p|
    ensures Wrote(buf, p, w, t.off, Show(t.cs))
    ensures buf == buf0 || fresh(buf)
  {
    var r := r0;
    buf, w, trailing, t := buf0, 1, trailing0, t0;
    while r < |p|
      invariant t == t0.(r := r, cs := t.cs, w := w, trailing := trailing)
      invariant Wrote(buf, p, w, t.off, Show(t.cs))
      invariant buf == buf0 || fresh(buf)
      decreases |p| + 1 - r
    {
      if p[r] == SLASH {
        t := AtSlash(t);
        r := r + 1;
      } else if p[r] == DOT && r + 1 == |p| {
        t := AtLastDot(t);
        trailing := true;
        r := r + 1;
      } else if p[r] == DOT && p[r + 1] == SLASH {
        t := AtDot(t);
        r := r + 2;
      } else if p[r] == DOT && p[r + 1] == DOT && (r + 2 == |p| || p[r + 2] == SLASH) {
        r, w, t := ParentElement(buf, p, r, w, t);
      } else {
        buf, r, w, t := RealElement(buf, p, r, w, t);
      }
    }
  }

  method ParentElement(buf: array?<byte>, p: Bytes, r0: nat, w0: nat, ghost t0: State)
      returns (r: nat, w: nat, ghost t: State)
    requires t0.p == p && t0.r == r0 && t0.w == w0
    requires Wrote(buf, p, w0, t0.off, Show(t0.cs))
    requires r0 + 1 < |p| && p[r0] == DOT && p[r0 + 1] == DOT && (r0 + 2 < |p| ==> p[r0 + 2] == SLASH)
    ensures t == t0.(r := r, cs := t.cs, w := w) && r == r0 + 3
    ensures Wrote(buf, p, w, t.off, Show(t.cs))
  {
    ghost var cs';
    r := r0 + 3;
    w, cs' := BackUp(buf, p, w0, t0.off, t0.cs);
    t := AtDotDot(t0, cs', w);
  }

  method RealElement(buf0: array?<byte>, p: Bytes, r0: nat, w0: nat, ghost t0: State)
      returns (buf: array?<byte>, r: nat, w: nat, ghost t: State)
    requires t0.p == p && t0.r == r0 && t0.w == w0
    requires Wrote(buf0, p, w0, t0.off, Show(t0.cs))
    requires IsElement(p, r0)
    modifies buf0
    ensures t == t0.(r := r, cs := t.cs, w := w) && r0 < r <= |p|
    ensures Wrote(buf, p, w, t.off, Show(t.cs))
    ensures buf == buf0 || fresh(buf)
  {
    ghost var cs';
    assert Inv(t0);
    buf, w, r, cs' := CopyElement(buf0, p, w0, r0, t0.off, t0.cs);
    t := AtElement(t0, r, cs', w);
  }

  // ----- The cleaned path is a fixed point -----

  lemma {:induction false} SplitConcat(a: Bytes, b: Bytes)
    ensures Split(a + [SLASH] + b) == Split(a) + Split(b)
    decreases |a|
  {
    var p := a + [SLASH] + b;
    if |a| == 0 {
      assert p[1..] == b;
    } else {
      SplitConcat(a[1..], b);
      assert p[0] == a[0] && p[1..] == a[1..] + [SLASH] + b;
      OntoFirst(a[0], Split(a[1..]), Split(b));
    }
  }

  lemma OntoFirst(c: byte, x: seq<Bytes>, y: seq<Bytes>)
    requires |x| > 0
    ensures [[c] + (x + y)[0]] + (x + y)[1..] == [[c] + x[0]] + x[1..] + y
    ensures [[]] + (x + y) == [[]] + x + y
  {
  }

  lemma {:induction false} SplitJoin(cs: Names)
    ensures Split(Join(cs)) == [[]] + cs
    decreases |cs|
  {
    if |cs| > 0 {
      var c := cs[|cs| - 1];
      assert Word(c) && NoSlash(c);
      SplitJoin(Init(cs));
      SplitConcat(Join(Init(cs)), c);
      SplitWord(c, []);
      assert Init(cs) + [c] == cs;
    }
  }

  lemma {:induction false} ResolveConcat(a: seq<Bytes>, b: seq<Bytes>, stack: seq<Bytes>)
    ensures Resolve(a + b, stack) == Resolve(b, Resolve(a, stack))
    decreases |a|
  {
    if |a| == 0 {
      assert a + b == b;
    } else {
      assert (a + b)[0] == a[0] && (a + b)[1..] == a[1..] + b;
      ResolveConcat(a[1..], b, Resolve1(stack, a[0]));
    }
  }

  lemma {:induction false} ResolveNames(cs: Names, stack: seq<Bytes>)
    ensures Resolve(cs, stack) == stack + cs
    decreases |cs|
  {
    if |cs| > 0 {
      assert Word(cs[0]);
      ResolveNames(cs[1..], stack + [cs[0]]);
      assert stack + [cs[0]] + cs[1..] == stack + cs;
    }
  }

  /** Where nothing is left to clean: names each after a slash, perhaps a slash at the end. */
  ghost predicate Canonical(p: Bytes) {
    exists cs: Names, dir: bool :: p == Shown(cs, dir)
  }

  function Shown(cs: Names, dir: bool): Bytes {
    if |cs| > 0 && dir then Show(cs) + [SLASH] else Show(cs)
  }

  lemma SplitShown(cs: Names, dir: bool)
    ensures Split(Shown(cs, dir)) == if |cs| > 0 && !dir then [[]] + cs else [[]] + cs + [[]]
  {
    SplitJoin(cs);
    if |cs| == 0 || dir {
      SplitConcat(Join(cs), []);
      assert Join(cs) + [SLASH] + [] == Shown(cs, dir);
    }
  }

  lemma CleanShown(cs: Names, dir: bool)
    ensures Clean(Shown(cs, dir)) == Shown(cs, dir)
  {
    var p := Shown(cs, dir);
    SplitShown(cs, dir);
    ResolveConcat([[]], cs, []);
    ResolveOne([], []);
    ResolveNames(cs, []);
    ResolveConcat([[]] + cs, [[]], []);
    ResolveOne([], cs);
    assert [] + cs == cs;
    assert Components(p) == cs;
    if |cs| > 0 && !dir {
      assert Last(p) == cs[|cs| - 1] && Word(cs[|cs| - 1]);
    }
  }

  lemma {:induction false} SplitNoSlash(p: Bytes)
    ensures forall i | 0 <= i < |Split(p)| :: NoSlash(Split(p)[i])
    decreases |p|
  {
    if |p| > 0 {
      SplitNoSlash(p[1..]);
    }
  }

  lemma {:induction false} ResolveKeepsNames(cs: seq<Bytes>, stack: Names)
    requires forall i | 0 <= i < |cs| :: NoSlash(cs[i])
    ensures AllWords(Resolve(cs, stack))
    decreases |cs|
  {
    if |cs| > 0 {
      ResolveKeepsNames(cs[1..], Resolve1(stack, cs[0]));
    }
  }

  /** Cleaning always reaches a canonical path, and moves exactly the paths that are not canonical. */
  lemma CleanIsCanonical(p: Bytes)
    ensures Canonical(Clean(p))
    ensures Clean(Clean(p)) == Clean(p)
    ensures Clean(p) == p <==> Canonical(p)
  {
    SplitNoSlash(p);
    ResolveKeepsNames(Split(p), []);
    var cs: Names := Components(p);
    assert Clean(p) == Shown(cs, Trailing(p));
    CleanShown(cs, Trailing(p));
    if Canonical(p) {
      var cs0: Names, dir: bool :| p == Shown(cs0, dir);
      CleanShown(cs0, dir);
    }
  }

  /** Two paths with the same components and the same ending are cleaned to the same path. */
  lemma CleanDecides(p: Bytes, q: Bytes)
    ensures Clean(p) == Clean(q) <==>
      Components(p) == Components(q) && (|Components(p)| == 0 || Trailing(p) == Trailing(q))
  {
    SplitNoSlash(p);
    SplitNoSlash(q);
    ResolveKeepsNames(Split(p), []);
    ResolveKeepsNames(Split(q), []);
    var cs: Names, ds: Names := Components(p), Components(q);
    if Clean(p) == Clean(q) {
      ShownInjective(cs, Trailing(p), ds, Trailing(q));
    }
  }

  lemma ShownInjective(cs: Names, c: bool, ds: Names, d: bool)
    requires Shown(cs, c) == Shown(ds, d)
    ensures cs == ds && (|cs| == 0 || c == d)
  {
    SplitShown(cs, c);
    SplitShown(ds, d);
    var s := Split(Shown(cs, c));
    assert |cs| > 0 && !c ==> Word(s[|s| - 1]);
    assert |ds| > 0 && !d ==> Word(s[|s| - 1]);
    if |cs| > 0 && !c {
      assert s[1..] == cs;
      assert s[1..] == ds;
    } else {
      assert s[1..|s| - 1] == cs;
      assert s[1..|s| - 1] == ds;
    }
  }
}
