/** The router's radix tree as values: adding a route and looking a path up. */
module RadixTree {
  import opened Prelude

  const SLASH: byte := 0x2F
  const COLON: byte := 0x3A
  const STAR: byte := 0x2A

  /** A chain of handlers, named by a number. */
  type Handlers = nat

  datatype NodeType = Static | Root | ParamNode | CatchAll

  datatype Node = Node(
    path: Bytes,
    indices: Bytes,
    children: seq<Node>,
    handlers: Option<Handlers>,
    priority: nat,
    nType: NodeType,
    maxParams: nat,
    wildChild: bool,
    fullPath: Bytes)

  const EmptyNode := Node([], [], [], None, 0, Static, 0, false, [])

  datatype Param = Param(key: Bytes, value: Bytes)

  datatype Found = NotFound | Found(handlers: Handlers, params: seq<Param>)

  datatype Added = Ok(n: Node) | Conflict

  // ----- Bytes -----

  /** Where the segment that starts the path ends. */
  function SegEnd(p: Bytes): (e: nat)
    ensures e <= |p| && (e < |p| ==> p[e] == SLASH)
  {
    if |p| == 0 || p[0] == SLASH then 0 else 1 + SegEnd(p[1..])
  }

  function CommonPrefix(a: Bytes, b: Bytes): (i: nat)
    ensures i <= |a| && i <= |b| && a[..i] == b[..i]
  {
    if |a| > 0 && |b| > 0 && a[0] == b[0] then 1 + CommonPrefix(a[1..], b[1..]) else 0
  }

  /** The position of a byte, or the length. */
  function Find(s: Bytes, c: byte): (i: nat)
    ensures i <= |s| && (i < |s| ==> s[i] == c)
    ensures forall j | 0 <= j < i :: s[j] != c
  {
    if |s| == 0 || s[0] == c then 0 else 1 + Find(s[1..], c)
  }

  predicate IsWildByte(c: byte) {
    c == COLON || c == STAR
  }

  /** A name, from `lo` up to `hi`, has no wildcard byte in it. */
  predicate NoWild(s: Bytes, lo: nat, hi: nat)
    requires hi <= |s|
  {
    forall k | lo <= k < hi :: !IsWildByte(s[k])
  }

  /** The first byte that starts a wildcard, or the length. */
  function FindWild(s: Bytes): (i: nat)
    ensures i <= |s| && (i < |s| ==> IsWildByte(s[i]))
    ensures forall j | 0 <= j < i :: !IsWildByte(s[j])
  {
    if |s| == 0 || IsWildByte(s[0]) then 0 else 1 + FindWild(s[1..])
  }

  function Colons(path: Bytes): nat {
    if |path| == 0 then 0 else (if IsWildByte(path[0]) then 1 else 0) + Colons(path[1..])
  }

  /** The number of wildcards, as far as a byte counts. */
  function CountParams(path: Bytes): nat {
    if Colons(path) >= 255 then 255 else Colons(path)
  }

  // ----- Looking a path up -----

  function Save(p: Param, f: Found): Found {
    if f.Found? then f.(params := [p] + f.params) else f
  }

  function Hit(h: Option<Handlers>): Found {
    if h.Some? then Found(h.value, []) else NotFound
  }

  /** What `getValue` finds from a node on, for the rest of the path. */
  function Get(n: Node, p: Bytes): Found
    decreases n, 1
  {
    if n.nType.ParamNode? then GetParam(n, p)
    else if n.path <= p then
      if |p| == |n.path| then Hit(n.handlers) else Down(n, p[|n.path|..])
    else NotFound
  }

  /** A wildcard takes the segment the path starts with. */
  function GetParam(n: Node, p: Bytes): Found
    decreases n, 0
  {
    if |p| == 0 || |n.path| == 0 then NotFound
    else
      var end := SegEnd(p);
      Save(Param(n.path[1..], p[..end]),
           if end == |p| then Hit(n.handlers)
           else if |n.children| > 0 then Get(n.children[0], p[end..])
           else NotFound)
  }

  /** Below a node whose path is used up. */
  function Down(n: Node, rest: Bytes): Found
    requires |rest| > 0
    decreases n, 0
  {
    if n.wildChild then
      if |n.children| == 0 then NotFound
      else if n.children[0].nType.CatchAll? then GetCatchAll(n.children[0], rest)
      else Get(n.children[0], rest)
    else
      var i := Find(n.indices, rest[0]);
      if i < |n.indices| && i < |n.children| then Get(n.children[i], rest) else NotFound
  }

  /** A catch-all takes everything. */
  function GetCatchAll(n: Node, rest: Bytes): Found {
    if |n.path| < 2 then NotFound else Save(Param(n.path[2..], rest), Hit(n.handlers))
  }

  // ----- Adding a route -----

  function Max(a: nat, b: nat): nat {
    if a < b then b else a
  }

  function MaxOfChildren(children: seq<Node>): nat {
    if |children| == 0 then 0 else Max(children[0].maxParams, MaxOfChildren(children[1..]))
  }

  /** The node keeps the first `i` bytes of its path; the rest and everything below goes to a new child. */
  function Split(n: Node, i: nat, fullPath: Bytes): Node
    requires i < |n.path|
  {
    var child := Node(n.path[i..], n.indices, n.children, n.handlers, if n.priority > 0 then n.priority - 1 else 0, Static,
                      MaxOfChildren(n.children), n.wildChild, n.fullPath);
    n.(path := n.path[..i], indices := [n.path[i]], children := [child], handlers := None, wildChild := false, fullPath := fullPath)
  }

  /** The child at `pos` gains priority and moves before the children of lower priority. */
  function NewPos(children: seq<Node>, pos: nat, prio: nat): (q: nat)
    requires pos <= |children|
    ensures q <= pos
    ensures forall j | q <= j < pos :: children[j].priority < prio
    ensures q > 0 ==> children[q - 1].priority >= prio
  {
    if pos > 0 && children[pos - 1].priority < prio then NewPos(children, pos - 1, prio) else pos
  }

  /** A sequence with the element at `pos` moved to the front position `q`. */
  function Moved<T>(s: seq<T>, pos: nat, q: nat): (r: seq<T>)
    requires q <= pos < |s|
    ensures |r| == |s|
  {
    s[..q] + [s[pos]] + s[q..pos] + s[pos + 1..]
  }

  function IncrementChildPrio(n: Node, pos: nat): (Node, nat)
    requires pos < |n.children| == |n.indices|
  {
    var child := n.children[pos].(priority := n.children[pos].priority + 1);
    var q := NewPos(n.children, pos, child.priority);
    (n.(children := Moved(n.children[pos := child], pos, q), indices := Moved(n.indices, pos, q)), q)
  }

  /** The path, with its wildcards, goes into a node that has no path yet or ends right before the path. */
  function InsertChild(n: Node, numParams: nat, path: Bytes, fullPath: Bytes, h: Handlers): Added
    decreases |path|, 1
  {
    if numParams == 0 then Ok(n.(path := path, handlers := Some(h), fullPath := fullPath))
    else
      var i := FindWild(path);
      if i == |path| || |n.children| > 0 then Conflict
      else if path[i] == STAR then InsertCatchAll(n, numParams, path, i, fullPath, h)
      else
        match WildNode(numParams, path[i..], fullPath, h)
        case Conflict => Conflict
        case Ok(m) => Ok((if i > 0 then n.(path := path[..i]) else n).(wildChild := true, children := [m]))
  }

  /** A catch-all is named, ends the path as its only wildcard left, and follows a slash the node does not have. */
  predicate CatchAllFits(n: Node, numParams: nat, path: Bytes, i: nat)
    requires i < |path|
  {
    var end := i + SegEnd(path[i..]);
    && i + 2 <= end && NoWild(path, i + 1, end)
    && end == |path| && numParams <= 1
    && !(|n.path| > 0 && n.path[|n.path| - 1] == SLASH) && i > 0 && path[i - 1] == SLASH
  }

  /** The node that takes the rest of the path. */
  function CatchAllNode(path: Bytes, fullPath: Bytes, h: Handlers): Node {
    EmptyNode.(path := path, nType := CatchAll, maxParams := 1, handlers := Some(h), priority := 1, fullPath := fullPath)
  }

  /** The node above it, which has no path. */
  function AboveCatchAll(all: Node, fullPath: Bytes): Node {
    EmptyNode.(wildChild := true, nType := CatchAll, maxParams := 1, priority := 1, fullPath := fullPath, children := [all])
  }

  function InsertCatchAll(n: Node, numParams: nat, path: Bytes, i: nat, fullPath: Bytes, h: Handlers): Added
    requires i < |path|
  {
    if CatchAllFits(n, numParams, path, i) then
      Ok(n.(path := path[..i - 1], indices := [SLASH],
            children := [AboveCatchAll(CatchAllNode(path[i - 1..], fullPath, h), fullPath)]))
    else Conflict
  }

  /** The wildcard node for a path that starts with a wildcard, and what follows it. */
  function WildNode(numParams: nat, path: Bytes, fullPath: Bytes, h: Handlers): Added
    requires |path| > 0 && numParams > 0
    decreases |path|, 0
  {
    var end := SegEnd(path);
    var m := EmptyNode.(nType := ParamNode, maxParams := numParams, fullPath := fullPath, priority := 1);
    if end < 2 || !NoWild(path, 1, end) then Conflict
    else if end == |path| then
      if numParams > 1 then Conflict else Ok(m.(path := path, handlers := Some(h)))
    else
      match InsertChild(EmptyNode.(maxParams := numParams - 1, priority := 1, fullPath := fullPath),
                        numParams - 1, path[end..], fullPath, h)
      case Conflict => Conflict
      case Ok(child) => Ok(m.(path := path[..end], children := [child]))
  }

  function WithChild(n: Node, i: nat, r: Added): Added
    requires i < |n.children|
  {
    if r.Ok? then Ok(n.(children := n.children[i := r.n])) else r
  }

  /** The node after `i` common bytes: split if its own path is longer. */
  function Arrive(n: Node, numParams: nat, i: nat, fullPath: Bytes, done: nat): Node
    requires i <= |n.path|
  {
    var n1 := n.(maxParams := Max(n.maxParams, numParams));
    if i < |n.path| then Split(n1, i, if done + i <= |fullPath| then fullPath[..done + i] else []) else n1
  }

  function MakeLeaf(n: Node, h: Handlers): Added {
    if n.handlers.Some? then Conflict else Ok(n.(handlers := Some(h)))
  }

  function Height(n: Node): nat {
    1 + HeightAll(n.children)
  }

  function HeightAll(ns: seq<Node>): nat {
    if |ns| == 0 then 0 else Max(Height(ns[0]), HeightAll(ns[1..]))
  }

  lemma {:induction false} HeightBelow(ns: seq<Node>, k: nat)
    requires k < |ns|
    ensures Height(ns[k]) <= HeightAll(ns)
    decreases |ns|
  {
    if k > 0 {
      HeightBelow(ns[1..], k - 1);
    }
  }

  /** One node of the walk; its priority already counts the new route. */
  function Walk(n: Node, numParams: nat, path: Bytes, fullPath: Bytes, done: nat, h: Handlers): Added
    decreases |path|, Height(n), 2
  {
    var i := CommonPrefix(path, n.path);
    var n1 := Arrive(n, numParams, i, fullPath, done);
    if i == |path| then MakeLeaf(n1, h)
    else if i == 0 && |n.path| > 0 then Apart(n1, numParams, path, fullPath, h)
    else
      assert i == 0 ==> Height(n1) == Height(n);
      Below(n1, numParams, path[i..], fullPath, done + i, h)
  }

  /** One turn of the walk: it has come to `n1` after `i` common bytes, and `r` is what comes of the rest. */
  ghost predicate Turns(n: Node, i: nat, n1: Node, numParams: nat, path: Bytes, fullPath: Bytes, done: nat, h: Handlers, r: Added) {
    && i == CommonPrefix(path, n.path) && n1 == Arrive(n, numParams, i, fullPath, done)
    && r == if i == |path| then MakeLeaf(n1, h)
            else if i == 0 && |n.path| > 0 then Apart(n1, numParams, path, fullPath, h)
            else Below(n1, numParams, path[i..], fullPath, done + i, h)
  }

  lemma WalkTurns(n: Node, numParams: nat, path: Bytes, fullPath: Bytes, done: nat, h: Handlers) returns (i: nat, n1: Node)
    ensures Turns(n, i, n1, numParams, path, fullPath, done, h, Walk(n, numParams, path, fullPath, done, h))
    ensures i == 0 && |n.path| == 0 ==> Height(n1) == Height(n)
  {
    i := CommonPrefix(path, n.path);
    n1 := Arrive(n, numParams, i, fullPath, done);
  }

  /** After a split before the first byte: no child starts with the path's first byte. */
  function Apart(n: Node, numParams: nat, path: Bytes, fullPath: Bytes, h: Handlers): Added
    requires |path| > 0
  {
    if !IsWildByte(path[0]) && |n.indices| == |n.children| then BelowNew(n, numParams, path, fullPath, h)
    else InsertChild(n, numParams, path, fullPath, h)
  }

  /** The rest of the path, which starts below the node. */
  function Below(n: Node, numParams: nat, path: Bytes, fullPath: Bytes, done: nat, h: Handlers): Added
    requires |path| > 0
    decreases |path|, Height(n), 1
  {
    if n.wildChild then BelowWild(n, numParams, path, fullPath, done, h)
    else if n.nType.ParamNode? && path[0] == SLASH && |n.children| == 1 then
      BelowSlash(n, numParams, path, fullPath, done, h)
    else if Find(n.indices, path[0]) < |n.indices| == |n.children| then
      BelowChild(n, Find(n.indices, path[0]), numParams, path, fullPath, done, h)
    else Apart(n, numParams, path, fullPath, h)
  }

  /** One less, in a byte. */
  function Less(numParams: nat): nat {
    if numParams == 0 then 255 else numParams - 1
  }

  /** The child is a wildcard: the path must go on with the same one. */
  function BelowWild(n: Node, numParams: nat, path: Bytes, fullPath: Bytes, done: nat, h: Handlers): Added
    decreases |path|, Height(n), 0
  {
    if |n.children| > 0 && SameWildcard(n.children[0].path, path) then
      HeightBelow(n.children, 0);
      var m := n.children[0];
      WithChild(n, 0, Walk(m.(priority := m.priority + 1, maxParams := Max(m.maxParams, numParams)),
                           Less(numParams), path, fullPath, done, h))
    else Conflict
  }

  /** The slash after a wildcard. */
  function BelowSlash(n: Node, numParams: nat, path: Bytes, fullPath: Bytes, done: nat, h: Handlers): Added
    requires |n.children| == 1
    decreases |path|, Height(n), 0
  {
    HeightBelow(n.children, 0);
    var c := n.children[0];
    WithChild(n, 0, Walk(c.(priority := c.priority + 1), numParams, path, fullPath, done, h))
  }

  /** A child that starts with the same byte. */
  function BelowChild(n: Node, k: nat, numParams: nat, path: Bytes, fullPath: Bytes, done: nat, h: Handlers): Added
    requires k < |n.children| == |n.indices|
    decreases |path|, Height(n), 0
  {
    HeightBelow(n.children, k);
    var (n1, q) := IncrementChildPrio(n, k);
    WithChild(n1, q, Walk(n.children[k].(priority := n.children[k].priority + 1), numParams, path, fullPath, done, h))
  }

  /** A new child. */
  function BelowNew(n: Node, numParams: nat, path: Bytes, fullPath: Bytes, h: Handlers): Added
    requires |path| > 0 && |n.indices| == |n.children|
  {
    var child := EmptyNode.(maxParams := numParams, fullPath := fullPath);
    var n0 := n.(indices := n.indices + [path[0]], children := n.children + [child]);
    var (n1, q) := IncrementChildPrio(n0, |n.children|);
    WithChild(n1, q, InsertChild(n1.children[q], numParams, path, fullPath, h))
  }

  /** The wildcard of an existing node is the one the path starts with. */
  predicate SameWildcard(w: Bytes, path: Bytes) {
    w <= path && 0 < |w| && (|w| == |path| || path[|w|] == SLASH)
  }

  function AddRoute(root: Node, path: Bytes, h: Handlers): Added {
    var n := root.(priority := root.priority + 1);
    var numParams := CountParams(path);
    if |n.path| > 0 || |n.children| > 0 then Walk(n, numParams, path, path, 0, h)
    else
      match InsertChild(n, numParams, path, path, h)
      case Conflict => Conflict
      case Ok(r) => Ok(r.(nType := Root))
  }

  // ----- Patterns -----

  /** A route's path: it starts with a slash, and no segment follows that of a catch-all. */
  predicate IsRoute(path: Bytes) {
    |path| > 0 && path[0] == SLASH && IsTail(path)
  }

  /** The rest of a route. */
  predicate IsTail(path: Bytes) {
    forall i, j | 0 <= i < j < |path| && path[i] == STAR :: path[j] != SLASH
  }

  /** A catch-all comes next. */
  predicate StarHere(pat: Bytes) {
    |pat| > 1 && pat[0] == SLASH && pat[1] == STAR
  }

  /**
   * A path matched against a pattern from the left; a wildcard takes everything up to the next slash or the end, a
   * catch-all everything from its slash on.
   */
  function Match(pat: Bytes, p: Bytes): Option<seq<Param>>
    decreases |pat|
  {
    if |pat| == 0 then (if |p| == 0 then Some([]) else None)
    else if |p| == 0 then None
    else if pat[0] == COLON then
      SegEndPositive(pat);
      var e, s := SegEnd(pat), SegEnd(p);
      match Match(pat[e..], p[s..])
      case None => None
      case Some(ps) => Some([Param(pat[1..e], p[..s])] + ps)
    else if StarHere(pat) then
      if p[0] == SLASH then Some([Param(pat[2..], p)]) else None
    else if p[0] == pat[0] then Match(pat[1..], p[1..])
    else None
  }

  lemma SegEndPositive(p: Bytes)
    ensures |p| > 0 && p[0] != SLASH ==> SegEnd(p) > 0
  {
  }

  predicate Plain(s: Bytes) {
    forall i | 0 <= i < |s| :: !IsWildByte(s[i])
  }

  lemma {:induction false} MatchPlain(s: Bytes, t: Bytes, p: Bytes)
    requires Plain(s) && (|t| > 0 ==> t[0] != STAR)
    ensures Match(s + t, p) == if s <= p then Match(t, p[|s|..]) else None
    decreases |s|
  {
    if |s| == 0 {
      assert s + t == t && p[0..] == p;
    } else if |p| > 0 && p[0] == s[0] {
      assert !StarHere(s + t);
      MatchPlain(s[1..], t, p[1..]);
      assert (s + t)[1..] == s[1..] + t;
      assert s <= p <==> s[1..] <= p[1..] by { assert s == [s[0]] + s[1..]; assert p == [p[0]] + p[1..]; }
      if s <= p { assert p[1..][|s| - 1..] == p[|s|..]; }
    }
  }

  lemma MatchParam(w: Bytes, t: Bytes, p: Bytes)
    requires |w| > 0 && w[0] == COLON && SegEnd(w) == |w| && (|t| > 0 ==> t[0] == SLASH)
    ensures Match(w + t, p) ==
      if |p| == 0 then None
      else match Match(t, p[SegEnd(p)..])
        case None => None
        case Some(ps) => Some([Param(w[1..], p[..SegEnd(p)])] + ps)
  {
    SegEndConcat(w, t);
    assert (w + t)[1..|w|] == w[1..] && (w + t)[|w|..] == t;
  }

  lemma {:induction false} SegEndConcat(w: Bytes, t: Bytes)
    requires SegEnd(w) == |w| && (|t| > 0 ==> t[0] == SLASH)
    ensures SegEnd(w + t) == |w|
    decreases |w|
  {
    if |w| == 0 {
      assert w + t == t;
    } else {
      assert (w + t)[1..] == w[1..] + t;
      SegEndConcat(w[1..], t);
    }
  }

  // ----- Well-formed trees -----

  predicate IsWildcard(w: Bytes) {
    |w| >= 2 && w[0] == COLON && SegEnd(w) == |w| && NoWild(w, 1, |w|)
  }

  ghost predicate Distinct(s: Bytes) {
    forall i, j | 0 <= i < j < |s| :: s[i] != s[j]
  }

  /** A child entered by the byte `c`. */
  ghost predicate Enters(n: Node, c: byte) {
    && !IsWildByte(c)
    && if |n.path| > 0 then n.nType.Static? && n.path[0] == c else c == SLASH && IsCatch(n)
  }

  /** The node that holds a catch-all. */
  predicate IsCatchVar(m: Node) {
    && m.nType.CatchAll? && !m.wildChild && |m.children| == 0 && |m.indices| == 0 && m.handlers.Some?
    && |m.path| >= 3 && StarHere(m.path) && NoWild(m.path, 2, |m.path|) && forall k | 2 <= k < |m.path| :: m.path[k] != SLASH
  }

  /** The node above it, which has no path. */
  predicate IsAbove(n: Node) {
    && n.nType.CatchAll? && n.wildChild && |n.path| == 0 && |n.indices| == 0 && n.handlers == None
    && |n.children| == 1 && IsCatchVar(n.children[0])
  }

  /** A node that a catch-all has left without a path. */
  predicate IsCatchTop(n: Node) {
    && (n.nType.Static? || n.nType.Root?) && !n.wildChild && |n.path| == 0 && n.indices == [SLASH] && n.handlers == None
    && |n.children| == 1 && IsAbove(n.children[0])
  }

  predicate IsCatch(n: Node) {
    IsAbove(n) || (n.nType.Static? && IsCatchTop(n))
  }

  ghost predicate WellFormed(n: Node)
    decreases n
  {
    && (forall i | 0 <= i < |n.children| :: WellFormed(n.children[i]))
    && if n.nType.ParamNode? then ParamShape(n)
       else if n.nType.CatchAll? then IsAbove(n) || IsCatchVar(n)
       else if |n.path| == 0 then IsCatchTop(n)
       else StaticShape(n)
  }

  ghost predicate ParamShape(n: Node) {
    && IsWildcard(n.path) && !n.wildChild && |n.children| <= 1
    && (n.indices == [] || (n.indices == [SLASH] && |n.children| == 1))
    && (|n.children| == 1 ==> Enters(n.children[0], SLASH) && n.children[0].nType.Static?)
    && (n.handlers.Some? || |n.children| > 0)
  }

  ghost predicate StaticShape(n: Node) {
    && |n.path| > 0 && Plain(n.path) && (n.handlers.Some? || |n.children| > 0)
    && if n.wildChild then |n.children| == 1 && n.indices == [] && n.children[0].nType.ParamNode? else Indexed(n)
  }

  /** The index bytes are the distinct first bytes of the children. */
  ghost predicate Indexed(n: Node) {
    && |n.indices| == |n.children| && Distinct(n.indices)
    && forall i | 0 <= i < |n.children| :: Enters(n.children[i], n.indices[i])
  }

  lemma FindAt(s: Bytes, k: nat)
    requires k < |s| && Distinct(s)
    ensures Find(s, s[k]) == k
  {
  }

  // ----- Splitting -----

  lemma PrefixSplit(a: Bytes, i: nat, p: Bytes)
    requires i <= |a|
    ensures a <= p <==> a[..i] <= p && a[i..] <= p[i..]
  {
    if a <= p {
      assert p[..|a|] == a;
      assert a[..i] == p[..i];
    }
    if a[..i] <= p && a[i..] <= p[i..] {
      assert a == a[..i] + a[i..];
      assert p == p[..i] + p[i..];
    }
  }

  /** An ordinary node: neither a parameter nor part of a catch-all. */
  predicate IsOrdinary(n: Node) {
    (n.nType.Static? || n.nType.Root?) && |n.path| > 0
  }

  lemma SplitDown(n: Node, i: nat, full: Bytes, rest: Bytes)
    requires IsOrdinary(n) && i < |n.path| && |rest| > 0
    ensures Down(Split(n, i, full), rest) ==
      if n.path[i..] <= rest then (if |rest| == |n.path| - i then Hit(n.handlers) else Down(n, rest[|n.path| - i..]))
      else NotFound
  {
    var child := Split(n, i, full).children[0];
    assert child.path == n.path[i..] && child.path[0] == n.path[i];
    if n.path[i..] <= rest && |rest| > |n.path| - i {
      assert Down(child, rest[|n.path| - i..]) == Down(n, rest[|n.path| - i..]);
    }
  }

  lemma SplitKeeps(n: Node, i: nat, full: Bytes, p: Bytes)
    requires WellFormed(n) && IsOrdinary(n) && 0 < i < |n.path|
    ensures WellFormed(Split(n, i, full))
    ensures Get(Split(n, i, full), p) == Get(n, p)
  {
    var s := Split(n, i, full);
    var child := s.children[0];
    assert !IsWildByte(n.path[i]);
    assert WellFormed(child);
    PrefixSplit(n.path, i, p);
    if n.path <= p {
      assert p[i..][|n.path| - i..] == p[|n.path|..];
    }
    if n.path[..i] <= p && |p| > i {
      SplitDown(n, i, full, p[i..]);
    }
  }

  // ----- A route inserted where nothing was -----

  function FromMatch(m: Option<seq<Param>>, h: Handlers): Found {
    if m.Some? then Found(h, m.value) else NotFound
  }

  lemma {:induction false} ColonsFrom(path: Bytes, i: nat)
    requires i <= |path| && Plain(path[..i])
    ensures Colons(path) == Colons(path[i..])
    decreases i
  {
    if i == 0 {
      assert path[0..] == path;
    } else {
      assert path[..i][0] == path[0];
      assert path[1..][..i - 1] == path[..i][1..];
      ColonsFrom(path[1..], i - 1);
      assert path[1..][i - 1..] == path[i..];
    }
  }

  lemma TailFrom(path: Bytes, i: nat)
    requires IsTail(path) && i <= |path|
    ensures IsTail(path[i..])
  {
    var t := path[i..];
    forall k, j | 0 <= k < j < |t| && t[k] == STAR
      ensures t[j] != SLASH
    {
      assert path[i + k] == STAR && path[i + j] == t[j];
    }
  }

  lemma {:induction false} NoColons(path: Bytes)
    requires Colons(path) == 0
    ensures Plain(path)
    decreases |path|
  {
    if |path| > 0 {
      NoColons(path[1..]);
      assert forall k | 0 < k < |path| :: path[k] == path[1..][k - 1];
    }
  }

  /** The wildcard that starts a path, and the path after it. */
  lemma WildcardSplit(path: Bytes)
    requires IsTail(path) && |path| > 0 && path[0] == COLON && NoWild(path, 1, SegEnd(path))
    ensures 0 < SegEnd(path) && SegEnd(path[..SegEnd(path)]) == SegEnd(path)
    ensures IsTail(path[SegEnd(path)..]) && Colons(path) == 1 + Colons(path[SegEnd(path)..])
  {
    var e := SegEnd(path);
    SegEndSelf(path);
    TailFrom(path, e);
    NameCounts(path, e);
  }

  lemma NameCounts(path: Bytes, e: nat)
    requires 0 < e <= |path| && IsWildByte(path[0]) && NoWild(path, 1, e)
    ensures Colons(path) == 1 + Colons(path[e..])
  {
    var t := path[1..];
    var name := t[..e - 1];
    forall k | 0 <= k < e - 1
      ensures !IsWildByte(name[k])
    {
      assert name[k] == path[k + 1];
    }
    ColonsFrom(t, e - 1);
    assert t[e - 1..] == path[e..];
  }

  lemma {:induction false} SegEndBefore(p: Bytes, k: nat)
    requires k < SegEnd(p)
    ensures p[k] != SLASH
    decreases |p|
  {
    if k > 0 {
      SegEndBefore(p[1..], k - 1);
    }
  }

  lemma {:induction false} SegEndSelf(p: Bytes)
    ensures SegEnd(p[..SegEnd(p)]) == SegEnd(p)
    decreases |p|
  {
    if |p| > 0 && p[0] != SLASH {
      SegEndSelf(p[1..]);
      assert p[..SegEnd(p)][1..] == p[1..][..SegEnd(p) - 1];
    }
  }

  /** Below this node there is one route and no other. */
  ghost predicate Serves(n: Node, path: Bytes, h: Handlers) {
    forall p :: Get(n, p) == FromMatch(Match(path, p), h)
  }

  /** `WellFormed`, met by a proof only where it asks for it. */
  ghost predicate Sound(n: Node) {
    forall u | u == n :: WellFormed(u)
  }

  ghost predicate Bare(n: Node) {
    (n.nType.Static? || n.nType.Root?) && |n.children| == 0 && |n.indices| == 0 && !n.wildChild
  }

  lemma InsertLeaf(n: Node, path: Bytes, h: Handlers)
    requires Bare(n) && n.handlers == Some(h) && n.path == path && |path| > 0 && Plain(path)
    ensures Sound(n) && Serves(n, path, h)
  {
    assert WellFormed(n);
    forall p
      ensures Get(n, p) == FromMatch(Match(path, p), h)
    {
      MatchPlain(path, [], p);
      assert path + [] == path;
    }
  }

  lemma WildAlone(m: Node, h: Handlers)
    requires m.nType.ParamNode? && IsWildcard(m.path) && |m.children| == 0 && m.indices == [] && !m.wildChild
    requires m.handlers == Some(h)
    ensures Sound(m) && Serves(m, m.path, h)
  {
    assert WellFormed(m);
    forall p
      ensures Get(m, p) == FromMatch(Match(m.path, p), h)
    {
      MatchParam(m.path, [], p);
      assert m.path + [] == m.path;
    }
  }

  lemma WildThen(m: Node, child: Node, t: Bytes, h: Handlers)
    requires m.nType.ParamNode? && IsWildcard(m.path) && m.children == [child] && m.indices == [] && !m.wildChild
    requires m.handlers == None && Sound(child) && Enters(child, SLASH) && child.nType.Static?
    requires |t| > 0 && t[0] == SLASH && Serves(child, t, h)
    ensures Sound(m) && Serves(m, m.path + t, h)
  {
    assert WellFormed(child);
    assert WellFormed(m);
    forall p
      ensures Get(m, p) == FromMatch(Match(m.path + t, p), h)
    {
      MatchParam(m.path, t, p);
      assert Get(child, p[SegEnd(p)..]) == FromMatch(Match(t, p[SegEnd(p)..]), h);
    }
  }

  /** A static part with a wildcard below it. */
  lemma TopThen(n: Node, m: Node, s: Bytes, t: Bytes, h: Handlers)
    requires IsOrdinary(n) && n.path == s && n.handlers == None && n.wildChild && n.children == [m] && n.indices == []
    requires |s| > 0 && Plain(s) && Sound(m) && m.nType.ParamNode?
    requires |t| > 0 && t[0] != STAR && Serves(m, t, h)
    ensures Sound(n) && Serves(n, s + t, h)
  {
    assert WellFormed(m);
    assert WellFormed(n);
    forall p
      ensures Get(n, p) == FromMatch(Match(s + t, p), h)
    {
      MatchPlain(s, t, p);
      if s <= p {
        assert Get(m, p[|s|..]) == FromMatch(Match(t, p[|s|..]), h);
      }
    }
  }

  /** The node is entered by the byte, whatever its type. */
  ghost predicate Leads(r: Node, c: byte) {
    if |r.path| > 0 then r.path[0] == c else c == SLASH && IsCatchTop(r)
  }

  lemma {:induction false} InsertOk(n: Node, np: nat, path: Bytes, full: Bytes, h: Handlers) returns (r: Node)
    requires Bare(n) && n.handlers == None && |n.path| == 0
    requires IsTail(path) && |path| > 0 && !IsWildByte(path[0]) && np == Colons(path)
    requires InsertChild(n, np, path, full, h).Ok?
    ensures r == InsertChild(n, np, path, full, h).n && Leads(r, path[0]) && r.nType == n.nType
    ensures Sound(r) && Serves(r, path, h)
    decreases |path|, 1
  {
    r := InsertChild(n, np, path, full, h).n;
    if np == 0 {
      NoColons(path);
      InsertLeaf(r, path, h);
    } else {
      var i := FindWild(path);
      if path[i] == STAR {
        CatchOk(n, np, path, i, full, h);
      } else {
        PlainBefore(path, i);
        var m := WildOk(np, path[i..], full, h);
        TopThen(r, m, path[..i], path[i..], h);
      }
    }
  }

  lemma PlainBefore(path: Bytes, i: nat)
    requires IsTail(path) && i == FindWild(path)
    ensures Plain(path[..i]) && IsTail(path[i..]) && Colons(path) == Colons(path[i..]) && path == path[..i] + path[i..]
  {
    TailFrom(path, i);
    ColonsFrom(path, i);
  }

  lemma CatchVarOk(path: Bytes, full: Bytes, h: Handlers)
    requires |path| >= 3 && StarHere(path) && NoWild(path, 2, |path|) && IsTail(path)
    ensures IsCatchVar(CatchAllNode(path, full, h)) && IsAbove(AboveCatchAll(CatchAllNode(path, full, h), full))
    ensures WellFormed(AboveCatchAll(CatchAllNode(path, full, h), full))
  {
    var m := CatchAllNode(path, full, h);
    assert WellFormed(m);
  }

  /** A catch-all below a static part that may be empty. */
  lemma CatchOk(n: Node, np: nat, path: Bytes, i: nat, full: Bytes, h: Handlers)
    requires Bare(n) && n.handlers == None && IsTail(path) && i == FindWild(path) < |path| && path[i] == STAR
    requires CatchAllFits(n, np, path, i)
    ensures var r := InsertCatchAll(n, np, path, i, full, h).n;
      Leads(r, path[0]) && Sound(r) && Serves(r, path, h)
  {
    var s, t := path[..i - 1], path[i - 1..];
    CatchText(path, i, s, t);
    var all := CatchAllNode(t, full, h);
    var above := AboveCatchAll(all, full);
    CatchVarOk(t, full, h);
    var r := n.(path := s, indices := [SLASH], children := [above]);
    CatchShape(r, above, s);
    CatchServes(r, above, all, s, t, h);
  }

  lemma CatchText(path: Bytes, i: nat, s: Bytes, t: Bytes)
    requires IsTail(path) && 0 < i == FindWild(path) && i + 2 <= |path| && path[i] == STAR && path[i - 1] == SLASH
    requires NoWild(path, i + 1, |path|) && s == path[..i - 1] && t == path[i - 1..]
    ensures path == s + t && Plain(s) && |t| >= 3 && StarHere(t) && NoWild(t, 2, |t|) && IsTail(t)
    ensures if |s| > 0 then s[0] == path[0] else path[0] == SLASH
  {
    TailFrom(path, i - 1);
    assert t[0] == path[i - 1] && t[1] == path[i];
    assert forall k | 2 <= k < |t| :: t[k] == path[i - 1 + k];
  }

  lemma CatchShape(r: Node, above: Node, s: Bytes)
    requires (r.nType.Static? || r.nType.Root?) && !r.wildChild && r.path == s && Plain(s) && r.handlers == None
    requires r.indices == [SLASH] && r.children == [above] && IsAbove(above) && WellFormed(above)
    ensures Sound(r) && (|s| == 0 ==> IsCatchTop(r))
  {
    assert WellFormed(r);
  }

  lemma CatchServes(r: Node, above: Node, all: Node, s: Bytes, t: Bytes, h: Handlers)
    requires !r.nType.ParamNode? && !r.wildChild && r.path == s && Plain(s) && r.handlers == None
    requires r.indices == [SLASH] && r.children == [above] && above.nType.CatchAll? && above.wildChild
    requires |above.path| == 0 && above.children == [all] && all.nType.CatchAll? && all.path == t && all.handlers == Some(h)
    requires StarHere(t)
    ensures Serves(r, s + t, h)
  {
    forall p
      ensures Get(r, p) == FromMatch(Match(s + t, p), h)
    {
      MatchPlain(s, t, p);
      if s <= p && |p| > |s| {
        CatchDown(r, above, all, t, p[|s|..], h);
      }
    }
  }

  lemma CatchDown(r: Node, above: Node, all: Node, t: Bytes, rest: Bytes, h: Handlers)
    requires !r.wildChild && r.indices == [SLASH] && r.children == [above] && above.nType.CatchAll? && above.wildChild
    requires |above.path| == 0 && above.children == [all] && all.nType.CatchAll? && all.path == t && all.handlers == Some(h)
    requires StarHere(t) && |rest| > 0
    ensures Down(r, rest) == FromMatch(Match(t, rest), h)
  {
    var i := Find([SLASH], rest[0]);
    if rest[0] == SLASH {
      assert i == 0;
      assert rest[0..] == rest;
      assert Get(above, rest) == Down(above, rest) == GetCatchAll(all, rest);
    } else {
      assert Find([SLASH][1..], rest[0]) == 0;
    }
  }

  lemma {:induction false} WildOk(np: nat, path: Bytes, full: Bytes, h: Handlers) returns (m: Node)
    requires IsTail(path) && |path| > 0 && path[0] == COLON && np == Colons(path) > 0
    requires WildNode(np, path, full, h).Ok?
    ensures m == WildNode(np, path, full, h).n && m.nType.ParamNode?
    ensures Sound(m) && Serves(m, path, h)
    decreases |path|, 0
  {
    var e := SegEnd(path);
    m := WildNode(np, path, full, h).n;
    WildcardSplit(path);
    WildcardAt(path, e, path[..e]);
    if e == |path| {
      WildAlone(m, h);
    } else {
      var t := path[e..];
      var child := InsertOk(EmptyNode.(maxParams := np - 1, priority := 1, fullPath := full), np - 1, t, full, h);
      WildThen(m, child, t, h);
    }
  }

  lemma WildcardAt(path: Bytes, e: nat, w: Bytes)
    requires 2 <= e <= |path| && w == path[..e] && SegEnd(w) == e && path[0] == COLON && NoWild(path, 1, e)
    ensures IsWildcard(w) && path == w + path[e..] && (e == |path| ==> w == path)
  {
    forall k | 1 <= k < e
      ensures !IsWildByte(w[k])
    {
      assert w[k] == path[k];
    }
  }

  // ----- What adding a route changes -----

  /** Exactly the paths the pattern matches are found anew, and were not found before. */
  ghost predicate Effect(before: Found, after: Found, m: Option<seq<Param>>, h: Handlers) {
    match m
    case None => after == before
    case Some(ps) => before == NotFound && after == Found(h, ps)
  }

  ghost predicate Adds(n: Node, n': Node, path: Bytes, h: Handlers) {
    forall p :: Effect(Get(n, p), Get(n', p), Match(path, p), h)
  }

  ghost predicate AddsDown(n: Node, n': Node, path: Bytes, h: Handlers) {
    forall rest | |rest| > 0 :: Effect(Down(n, rest), Down(n', rest), Match(path, rest), h)
  }

  /** The same node, with something added below it. */
  ghost predicate SameTop(n: Node, n': Node) {
    n'.path == n.path && n'.nType == n.nType && n'.handlers == n.handlers
  }

  lemma StaticAdds(n: Node, n': Node, t: Bytes, h: Handlers)
    requires !n.nType.ParamNode? && SameTop(n, n') && Plain(n.path) && |t| > 0 && t[0] != STAR && AddsDown(n, n', t, h)
    ensures Adds(n, n', n.path + t, h)
  {
    forall p
      ensures Effect(Get(n, p), Get(n', p), Match(n.path + t, p), h)
    {
      MatchPlain(n.path, t, p);
      if n.path <= p && |p| > |n.path| {
        var rest := p[|n.path|..];
        assert Effect(Down(n, rest), Down(n', rest), Match(t, rest), h);
      }
    }
  }

  lemma ParamAdds(n: Node, n': Node, t: Bytes, h: Handlers)
    requires n.nType.ParamNode? && IsWildcard(n.path) && SameTop(n, n') && |t| > 0 && t[0] == SLASH
    requires |n'.children| == 1 && |n.children| <= 1
    requires if |n.children| == 1 then Adds(n.children[0], n'.children[0], t, h) else Serves(n'.children[0], t, h)
    ensures Adds(n, n', n.path + t, h)
  {
    forall p
      ensures Effect(Get(n, p), Get(n', p), Match(n.path + t, p), h)
    {
      MatchParam(n.path, t, p);
      var rest := p[SegEnd(p)..];
      var child' := n'.children[0];
      if |n.children| == 1 {
        assert Effect(Get(n.children[0], rest), Get(child', rest), Match(t, rest), h);
      } else {
        assert Get(child', rest) == FromMatch(Match(t, rest), h);
      }
    }
  }

  lemma LeafAdds(n: Node, h: Handlers)
    requires WellFormed(n) && (n.nType.ParamNode? || IsOrdinary(n)) && n.handlers == None
    ensures Sound(n.(handlers := Some(h))) && Adds(n, n.(handlers := Some(h)), n.path, h)
  {
    var n' := n.(handlers := Some(h));
    assert WellFormed(n');
    assert n.path + [] == n.path;
    forall p
      ensures Effect(Get(n, p), Get(n', p), Match(n.path, p), h)
    {
      if n.nType.ParamNode? {
        MatchParam(n.path, [], p);
      } else {
        MatchPlain(n.path, [], p);
        if n.path <= p && |p| > |n.path| {
          assert Down(n', p[|n.path|..]) == Down(n, p[|n.path|..]);
        }
      }
    }
  }

  // ----- Children -----

  lemma MatchFirst(path: Bytes, rest: Bytes)
    requires |path| > 0 && |rest| > 0 && path[0] != COLON && path[0] != rest[0]
    ensures Match(path, rest) == None
  {
  }

  ghost predicate IndexedNode(n: Node) {
    Sound(n) && IsOrdinary(n) && !n.wildChild
  }

  lemma ReplaceChild(n: Node, k: nat, child: Node, path: Bytes, h: Handlers)
    requires IndexedNode(n) && k < |n.indices| && k < |n.children|
    requires Sound(child) && Enters(child, n.indices[k]) && |path| > 0 && path[0] == n.indices[k]
    requires Adds(n.children[k], child, path, h)
    ensures Sound(n.(children := n.children[k := child]))
    ensures AddsDown(n, n.(children := n.children[k := child]), path, h)
  {
    var a := n.(children := n.children[k := child]);
    assert WellFormed(n);
    assert WellFormed(child);
    assert WellFormed(a);
    forall rest | |rest| > 0
      ensures Effect(Down(n, rest), Down(a, rest), Match(path, rest), h)
    {
      FindAt(n.indices, k);
      if rest[0] == path[0] {
        assert Effect(Get(n.children[k], rest), Get(child, rest), Match(path, rest), h);
      } else {
        MatchFirst(path, rest);
      }
    }
  }

  lemma {:induction false} FindConcat(s: Bytes, c: byte, d: byte)
    ensures Find(s + [c], d) == if Find(s, d) < |s| then Find(s, d) else if c == d then |s| else |s| + 1
    decreases |s|
  {
    if |s| == 0 {
      assert s + [c] == [c];
      assert Find([c][1..], d) == 0;
    } else if s[0] != d {
      assert (s + [c])[1..] == s[1..] + [c];
      FindConcat(s[1..], c, d);
    }
  }

  lemma AppendChild(n: Node, child: Node, path: Bytes, h: Handlers)
    requires IndexedNode(n) && |path| > 0 && Find(n.indices, path[0]) == |n.indices|
    requires Sound(child) && Enters(child, path[0]) && Serves(child, path, h)
    ensures Sound(n.(indices := n.indices + [path[0]], children := n.children + [child]))
    ensures AddsDown(n, n.(indices := n.indices + [path[0]], children := n.children + [child]), path, h)
  {
    var a := n.(indices := n.indices + [path[0]], children := n.children + [child]);
    assert WellFormed(n);
    assert WellFormed(child);
    assert WellFormed(a);
    forall rest | |rest| > 0
      ensures Effect(Down(n, rest), Down(a, rest), Match(path, rest), h)
    {
      FindConcat(n.indices, path[0], rest[0]);
      if rest[0] == path[0] {
        assert Get(child, rest) == FromMatch(Match(path, rest), h);
      } else {
        MatchFirst(path, rest);
      }
    }
  }

  // ----- Reordering -----

  /** Where an element of the moved sequence comes from. */
  function Source(pos: nat, q: nat, i: nat): nat {
    if i == q then pos else if q < i <= pos then i - 1 else i
  }

  lemma MovedAt<T>(s: seq<T>, pos: nat, q: nat, i: nat)
    requires q <= pos < |s| && i < |s|
    ensures Source(pos, q, i) < |s| && Moved(s, pos, q)[i] == s[Source(pos, q, i)]
  {
  }

  lemma Unmoved<T>(s: seq<T>, pos: nat, q: nat)
    requires q <= pos < |s|
    ensures s[..q] + s[q..pos] + [s[pos]] + s[pos + 1..] == s
  {
  }

  lemma MovedUpdate<T>(s: seq<T>, pos: nat, q: nat, x: T)
    requires q <= pos < |s|
    ensures Moved(s, pos, q)[q := x] == Moved(s[pos := x], pos, q)
    ensures Moved(s, pos, q)[q] == s[pos]
  {
  }

  function Reordered(n: Node, pos: nat, q: nat): Node
    requires q <= pos < |n.children| == |n.indices|
  {
    n.(indices := Moved(n.indices, pos, q), children := Moved(n.children, pos, q))
  }

  ghost predicate SameDown(n: Node, n': Node) {
    forall rest | |rest| > 0 :: Down(n', rest) == Down(n, rest)
  }

  lemma ReorderIndexed(n: Node, pos: nat, q: nat)
    requires WellFormed(n) && IsOrdinary(n) && !n.wildChild && q <= pos < |n.children| == |n.indices|
    ensures Indexed(Reordered(n, pos, q))
    ensures forall i | 0 <= i < |n.children| :: WellFormed(Reordered(n, pos, q).children[i])
  {
    var r := Reordered(n, pos, q);
    forall i | 0 <= i < |n.children|
      ensures Enters(r.children[i], r.indices[i]) && WellFormed(r.children[i])
    {
      MovedAt(n.indices, pos, q, i);
      MovedAt(n.children, pos, q, i);
    }
    forall i, j | 0 <= i < j < |r.indices|
      ensures r.indices[i] != r.indices[j]
    {
      MovedAt(n.indices, pos, q, i);
      MovedAt(n.indices, pos, q, j);
    }
  }

  lemma ReorderKeeps(n: Node, pos: nat, q: nat)
    requires IndexedNode(n) && q <= pos < |n.children| == |n.indices|
    ensures Sound(Reordered(n, pos, q)) && SameDown(n, Reordered(n, pos, q))
  {
    var r := Reordered(n, pos, q);
    assert WellFormed(n);
    ReorderIndexed(n, pos, q);
    assert WellFormed(r);
    forall rest | |rest| > 0
      ensures Down(r, rest) == Down(n, rest)
    {
      var j := Find(r.indices, rest[0]);
      var i := Find(n.indices, rest[0]);
      if j < |r.indices| {
        MovedAt(n.indices, pos, q, j);
        MovedAt(n.children, pos, q, j);
        FindAt(n.indices, Source(pos, q, j));
      } else if i < |n.indices| {
        var k := if i == pos then q else if q <= i < pos then i + 1 else i;
        MovedAt(n.indices, pos, q, k);
        assert false;
      }
    }
  }

  lemma ReorderAdds(n: Node, a: Node, pos: nat, q: nat, path: Bytes, h: Handlers)
    requires IndexedNode(a) && q <= pos < |a.children| == |a.indices| && AddsDown(n, a, path, h)
    ensures Sound(Reordered(a, pos, q)) && AddsDown(n, Reordered(a, pos, q), path, h)
  {
    ReorderKeeps(a, pos, q);
    var r := Reordered(a, pos, q);
    forall rest | |rest| > 0
      ensures Effect(Down(n, rest), Down(r, rest), Match(path, rest), h)
    {
      assert Down(r, rest) == Down(a, rest);
      assert Effect(Down(n, rest), Down(a, rest), Match(path, rest), h);
    }
  }

  // ----- The walk -----

  /** Priorities and parameter counts do not matter for a lookup. */
  lemma Counted(n: Node, priority: nat, maxParams: nat)
    requires Sound(n)
    ensures Sound(n.(priority := priority, maxParams := maxParams))
  {
    assert WellFormed(n);
    assert WellFormed(n.(priority := priority, maxParams := maxParams));
  }

  lemma CountedGet(n: Node, priority: nat, maxParams: nat, p: Bytes)
    ensures Get(n.(priority := priority, maxParams := maxParams), p) == Get(n, p)
  {
    var n1 := n.(priority := priority, maxParams := maxParams);
    if !n.nType.ParamNode? && n.path <= p && |p| > |n.path| {
      assert Down(n1, p[|n.path|..]) == Down(n, p[|n.path|..]);
    }
  }

  lemma CountedAdds(n: Node, priority: nat, maxParams: nat, n': Node, path: Bytes, h: Handlers)
    requires Walked(n.(priority := priority, maxParams := maxParams), n', path, h)
    ensures Walked(n, n', path, h)
  {
    var n1 := n.(priority := priority, maxParams := maxParams);
    forall p
      ensures Effect(Get(n, p), Get(n', p), Match(path, p), h)
    {
      CountedGet(n, priority, maxParams, p);
      assert Effect(Get(n1, p), Get(n', p), Match(path, p), h);
    }
  }

  /** `CanEnter`, met by a proof only where it asks for it. */
  ghost predicate Entered(n: Node, np: nat, path: Bytes) {
    forall u | u == n :: CanEnter(u, np, path)
  }

  ghost predicate CanEnter(n: Node, np: nat, path: Bytes) {
    && Sound(n) && IsTail(path) && |path| > 0
    && if n.nType.ParamNode? then SameWildcard(n.path, path) && np + 1 == Colons(path)
       else IsOrdinary(n) && path[0] == n.path[0] && np == Colons(path)
  }

  ghost predicate Walked(n: Node, n': Node, path: Bytes, h: Handlers) {
    && Sound(n') && n'.nType == n.nType && |n'.path| > 0 && |n.path| > 0 && n'.path[0] == n.path[0]
    && Adds(n, n', path, h)
  }

  /** The wildcard child is walked into. */
  lemma WildBelow(n: Node, m': Node, path: Bytes, h: Handlers)
    requires Sound(n) && n.wildChild && IsOrdinary(n) && |n.children| > 0
    requires Walked(n.children[0], m', path, h)
    ensures Sound(n.(children := n.children[0 := m'])) && AddsDown(n, n.(children := n.children[0 := m']), path, h)
  {
    assert WellFormed(n);
    assert WellFormed(m');
    var n' := n.(children := n.children[0 := m']);
    assert WellFormed(n');
    forall rest | |rest| > 0
      ensures Effect(Down(n, rest), Down(n', rest), Match(path, rest), h)
    {
      assert Effect(Get(n.children[0], rest), Get(m', rest), Match(path, rest), h);
    }
  }

  /** A wildcard below a node that had nothing below it. */
  lemma NewWild(n: Node, m: Node, path: Bytes, h: Handlers)
    requires Sound(n) && !n.wildChild && IsOrdinary(n) && |n.children| == 0
    requires Sound(m) && m.nType.ParamNode? && Serves(m, path, h)
    ensures Sound(n.(wildChild := true, children := [m])) && AddsDown(n, n.(wildChild := true, children := [m]), path, h)
  {
    assert WellFormed(n);
    assert WellFormed(m);
    var n' := n.(wildChild := true, children := [m]);
    assert WellFormed(n');
    forall rest | |rest| > 0
      ensures Effect(Down(n, rest), Down(n', rest), Match(path, rest), h)
    {
      assert Get(m, rest) == FromMatch(Match(path, rest), h);
    }
  }

  lemma ChildSound(n: Node, k: nat)
    requires Sound(n) && k < |n.children|
    ensures Sound(n.children[k])
    ensures IsOrdinary(n) && n.wildChild ==> n.children[k].nType.ParamNode? && |n.children| == 1
    ensures IsOrdinary(n) && !n.wildChild ==> |n.indices| == |n.children| && Enters(n.children[k], n.indices[k])
    ensures n.nType.ParamNode? ==> |n.children| == 1 && Enters(n.children[0], SLASH) && n.children[0].nType.Static? && !n.wildChild
  {
    assert WellFormed(n);
    assert WellFormed(n.children[k]);
  }

  ghost predicate Arrived(n: Node, n1: Node, s: Bytes) {
    forall u | u == n1 :: |n.path| > 0 && |s| > 0 && s[0] == n.path[0] && SameGet(n, u)
  }

  ghost predicate SameGet(n: Node, n1: Node) {
    forall p :: Get(n1, p) == Get(n, p)
  }

  lemma ArriveOk(n: Node, np: nat, path: Bytes, full: Bytes, done: nat, i: nat, n1: Node)
    requires Entered(n, np, path) && i == CommonPrefix(path, n.path) && n1 == Arrive(n, np, i, full, done)
    ensures i > 0 && Sound(n1) && n1.nType == n.nType && n1.path == path[..i] && (n1.nType.ParamNode? || IsOrdinary(n1))
    ensures Arrived(n, n1, path[..i])
  {
    assert CanEnter(n, np, path);
    var n0 := n.(maxParams := Max(n.maxParams, np));
    Counted(n, n.priority, n0.maxParams);
    if n.nType.ParamNode? {
      PrefixCommon(path, n.path);
    }
    if i < |n.path| {
      SplitSound(n0, i, if done + i <= |full| then full[..done + i] else []);
    }
    forall p
      ensures Get(n1, p) == Get(n, p)
    {
      CountedGet(n, n.priority, n0.maxParams, p);
      if i < |n.path| {
        SplitSame(n0, i, if done + i <= |full| then full[..done + i] else [], p);
      }
    }
    assert SameGet(n, n1);
  }

  lemma SplitSound(n: Node, i: nat, full: Bytes)
    requires Sound(n) && IsOrdinary(n) && 0 < i < |n.path|
    ensures Sound(Split(n, i, full))
  {
    assert WellFormed(n);
    SplitKeeps(n, i, full, []);
  }

  lemma SplitSame(n: Node, i: nat, full: Bytes, p: Bytes)
    requires Sound(n) && IsOrdinary(n) && 0 < i < |n.path|
    ensures Get(Split(n, i, full), p) == Get(n, p)
  {
    assert WellFormed(n);
    SplitKeeps(n, i, full, p);
  }

  lemma ArrivedAdds(n: Node, n1: Node, s: Bytes, n': Node, path: Bytes, h: Handlers)
    requires Arrived(n, n1, s) && Sound(n') && n'.nType == n.nType && n'.path == s && Adds(n1, n', path, h)
    ensures Walked(n, n', path, h)
  {
    assert SameGet(n, n1);
    forall p
      ensures Effect(Get(n, p), Get(n', p), Match(path, p), h)
    {
      assert Get(n1, p) == Get(n, p);
      assert Effect(Get(n1, p), Get(n', p), Match(path, p), h);
    }
  }

  lemma LeafSound(n: Node, h: Handlers)
    requires Sound(n) && (n.nType.ParamNode? || IsOrdinary(n)) && n.handlers == None
    ensures Sound(n.(handlers := Some(h))) && Adds(n, n.(handlers := Some(h)), n.path, h)
  {
    assert WellFormed(n);
    LeafAdds(n, h);
  }

  /** What follows the common bytes, with its number of wildcards. */
  lemma AfterCommon(n: Node, np: nat, path: Bytes, i: nat)
    requires Entered(n, np, path) && i == CommonPrefix(path, n.path)
    ensures IsTail(path[i..]) && np == Colons(path[i..])
    ensures n.nType.ParamNode? && i < |path| ==> path[i] == SLASH
  {
    assert CanEnter(n, np, path);
    if n.nType.ParamNode? {
      ParamNotWild(n);
      PrefixCommon(path, n.path);
      WildcardTail(path, n.path);
    } else {
      PlainPath(n);
      PlainAfter(path, n.path, i);
    }
  }

  lemma PlainAfter(path: Bytes, s: Bytes, i: nat)
    requires IsTail(path) && Plain(s) && i <= |s| && i <= |path| && path[..i] == s[..i]
    ensures IsTail(path[i..]) && Colons(path) == Colons(path[i..])
  {
    TailFrom(path, i);
    ColonsFrom(path, i);
  }

  lemma {:induction false} WalkOk(n: Node, np: nat, path: Bytes, full: Bytes, done: nat, h: Handlers, n': Node)
    requires Entered(n, np, path) && Walks(n, np, path, full, done, h, n')
    ensures Walked(n, n', path, h)
    decreases |path|, 2
  {
    var i, n1 := WalksTurns(n, np, path, full, done, h, n');
    TurnOk(n, i, n1, np, path, full, done, h, n');
  }

  lemma {:induction false} TurnOk(n: Node, i: nat, n1: Node, np: nat, path: Bytes, full: Bytes, done: nat, h: Handlers, n': Node)
    requires Entered(n, np, path) && Turns(n, i, n1, np, path, full, done, h, Ok(n'))
    ensures Walked(n, n', path, h)
    decreases |path|, 1
  {
    ArriveOk(n, np, path, full, done, i, n1);
    if i == |path| {
      assert path[..i] == path;
      LeafSound(n1, h);
    } else {
      AfterCommon(n, np, path, i);
      BelowOk(n1, np, path[i..], full, done + i, h, n');
      BelowTurned(n1, n', path, i, h);
    }
    ArrivedAdds(n, n1, path[..i], n', path, h);
  }

  ghost predicate BelowAdds(n: Node, n': Node, t: Bytes, h: Handlers) {
    Sound(n') && SameTop(n, n') && Adds(n, n', n.path + t, h)
  }

  lemma BelowTurned(n: Node, n': Node, path: Bytes, i: nat, h: Handlers)
    requires i <= |path| && n.path == path[..i] && BelowAdds(n, n', path[i..], h)
    ensures Sound(n') && n'.nType == n.nType && n'.path == path[..i] && Adds(n, n', path, h)
  {
    assert path == path[..i] + path[i..];
  }

  lemma {:induction false} BelowOk(n: Node, np: nat, t: Bytes, full: Bytes, done: nat, h: Handlers, n': Node)
    requires Sound(n) && (n.nType.ParamNode? || IsOrdinary(n)) && IsTail(t) && |t| > 0 && np == Colons(t)
    requires n.nType.ParamNode? ==> t[0] == SLASH
    requires Below(n, np, t, full, done, h) == Ok(n')
    ensures BelowAdds(n, n', t, h)
    decreases |t|, 5
  {
    var k := Find(n.indices, t[0]);
    if n.nType.ParamNode? {
      ParamNotWild(n);
      if |n.children| == 1 {
        BelowSlashOk(n, np, t, full, done, h, n');
      } else {
        BelowFirstOk(n, np, t, full, h, n');
      }
    } else if n.wildChild {
      BelowWildOk(n, np, t, full, done, h, n');
    } else {
      IndexedSame(n);
      StarRefused(n, np, t, full, done, h);
      if k < |n.indices| {
        BelowChildOk(n, k, np, t, full, done, h, n');
      } else if t[0] != COLON {
        BelowNewOk(n, np, t, full, h, n');
      } else {
        BelowColonOk(n, np, t, full, h, n');
      }
    }
  }

  /** A catch-all is never put below a slash that is there already. */
  lemma StarRefused(n: Node, np: nat, t: Bytes, full: Bytes, done: nat, h: Handlers)
    requires Sound(n) && IsOrdinary(n) && |t| > 0 && np == Colons(t)
    ensures t[0] == STAR ==> Below(n, np, t, full, done, h).Conflict?
  {
    assert WellFormed(n);
    if n.wildChild {
      assert WellFormed(n.children[0]);
    } else {
      StarNoIndex(n);
    }
  }

  lemma StarNoIndex(n: Node)
    requires WellFormed(n) && IsOrdinary(n) && !n.wildChild
    ensures Find(n.indices, STAR) == |n.indices|
  {
    assert forall k | 0 <= k < |n.indices| :: Enters(n.children[k], n.indices[k]);
  }

  /** Whatever comes to a catch-all is refused. */
  lemma AboveRefuses(n: Node, np: nat, t: Bytes, full: Bytes, done: nat, h: Handlers)
    requires IsAbove(n) && IsTail(t) && |t| > 0
    ensures Walk(n, np, t, full, done, h).Conflict?
  {
    var n1 := n.(maxParams := Max(n.maxParams, np));
    var m := n.children[0];
    assert t[0..] == t && CommonPrefix(t, n.path) == 0;
    assert Walk(n, np, t, full, done, h) == Below(n1, np, t, full, done, h) == BelowWild(n1, np, t, full, done, h);
    if SameWildcard(m.path, t) {
      var m1 := m.(priority := m.priority + 1, maxParams := Max(m.maxParams, np));
      VarRefuses(m1, Less(np), t, full, done, h);
    }
  }

  lemma VarRefuses(m: Node, np: nat, t: Bytes, full: Bytes, done: nat, h: Handlers)
    requires IsCatchVar(m) && IsTail(t) && SameWildcard(m.path, t)
    ensures Walk(m, np, t, full, done, h).Conflict?
  {
    assert t[1] == m.path[1] == STAR;
    PrefixCommon(t, m.path);
  }

  lemma CatchRefuses(n: Node, np: nat, t: Bytes, full: Bytes, done: nat, h: Handlers)
    requires (IsAbove(n) || IsCatchTop(n)) && IsTail(t) && |t| > 0 && t[0] == SLASH
    ensures Walk(n, np, t, full, done, h).Conflict?
  {
    if IsAbove(n) {
      AboveRefuses(n, np, t, full, done, h);
    } else {
      var c := n.children[0];
      var n1 := n.(maxParams := Max(n.maxParams, np));
      assert t[0..] == t;
      AboveRefuses(c.(priority := c.priority + 1), np, t, full, done, h);
      assert BelowChild(n1, 0, np, t, full, done, h).Conflict?;
    }
  }

  lemma ParamNotWild(n: Node)
    requires Sound(n) && n.nType.ParamNode?
    ensures !n.wildChild && IsWildcard(n.path) && |n.children| <= 1 && (|n.children| == 0 ==> |n.indices| == 0)
  {
    assert WellFormed(n);
  }

  lemma IndexedSame(n: Node)
    requires IndexedNode(n)
    ensures |n.indices| == |n.children| && Plain(n.path) && |n.path| > 0
  {
    assert WellFormed(n);
  }

  lemma PlainPath(n: Node)
    requires Sound(n) && IsOrdinary(n)
    ensures Plain(n.path)
  {
    assert WellFormed(n);
  }

  lemma {:induction false} BelowWildOk(n: Node, np: nat, t: Bytes, full: Bytes, done: nat, h: Handlers, n': Node)
    requires Sound(n) && IsOrdinary(n) && n.wildChild && IsTail(t) && |t| > 0 && np == Colons(t)
    requires BelowWild(n, np, t, full, done, h) == Ok(n')
    ensures BelowAdds(n, n', t, h)
    decreases |t|, 4
  {
    var m1, m' := WildWalks(n, np, t, full, done, h, n');
    WildChildOk(n, np, t, full, done, h, m1, m');
    PlainPath(n);
    StaticAdds(n, n', t, h);
  }

  lemma {:induction false} WildChildOk(n: Node, np: nat, t: Bytes, full: Bytes, done: nat, h: Handlers, m1: Node, m': Node)
    requires Sound(n) && IsOrdinary(n) && n.wildChild && |n.children| > 0 && IsTail(t) && |t| > 0 && np == Colons(t)
    requires SameWildcard(n.children[0].path, t) && m1 == n.children[0].(priority := m1.priority, maxParams := m1.maxParams)
    requires Walks(m1, Less(np), t, full, done, h, m')
    ensures t[0] == COLON && Sound(n.(children := n.children[0 := m'])) && AddsDown(n, n.(children := n.children[0 := m']), t, h)
    decreases |t|, 3
  {
    var m := n.children[0];
    ChildSound(n, 0);
    Counted(m, m1.priority, m1.maxParams);
    SameHasColon(m, t);
    assert CanEnter(m1, np - 1, t);
    WalkOk(m1, np - 1, t, full, done, h, m');
    CountedAdds(m, m1.priority, m1.maxParams, m', t, h);
    WildBelow(n, m', t, h);
  }

  lemma {:induction false} BelowSlashOk(n: Node, np: nat, t: Bytes, full: Bytes, done: nat, h: Handlers, n': Node)
    requires Sound(n) && n.nType.ParamNode? && |n.children| == 1 && IsTail(t) && |t| > 0 && t[0] == SLASH && np == Colons(t)
    requires BelowSlash(n, np, t, full, done, h) == Ok(n')
    ensures BelowAdds(n, n', t, h)
    decreases |t|, 4
  {
    ParamNotWild(n);
    ChildSound(n, 0);
    var c1, c' := SlashWalks(n, np, t, full, done, h, n');
    ChildOk(n.children[0], np, t, full, done, h, c1, c');
    ParamAdds(n, n', t, h);
    ParamSound(n, c');
  }

  /** A child entered by the path's first byte. */
  lemma {:induction false} ChildOk(c: Node, np: nat, t: Bytes, full: Bytes, done: nat, h: Handlers, c1: Node, c': Node)
    requires Sound(c) && |t| > 0 && Enters(c, t[0]) && IsTail(t) && np == Colons(t)
    requires c1 == c.(priority := c1.priority) && Walks(c1, np, t, full, done, h, c')
    ensures Walked(c, c', t, h) && c.nType.Static? && Enters(c', t[0])
    decreases |t|, 3
  {
    Counted(c, c1.priority, c.maxParams);
    NotCatch(c, c1, np, t, full, done, h, c');
    assert CanEnter(c1, np, t);
    WalkOk(c1, np, t, full, done, h, c');
    CountedAdds(c, c1.priority, c.maxParams, c', t, h);
  }

  /** A walk that came through did not go to a catch-all. */
  lemma NotCatch(c: Node, c1: Node, np: nat, t: Bytes, full: Bytes, done: nat, h: Handlers, c': Node)
    requires |t| > 0 && Enters(c, t[0]) && IsTail(t) && c1 == c.(priority := c1.priority) && Walks(c1, np, t, full, done, h, c')
    ensures IsOrdinary(c) && c.nType.Static? && c.path[0] == t[0]
  {
    assert Walk(c1, np, t, full, done, h).Ok?;
    if |c.path| == 0 {
      CatchRefuses(c1, np, t, full, done, h);
    }
  }

  lemma ParamSound(n: Node, c: Node)
    requires Sound(n) && n.nType.ParamNode? && |n.children| == 1 && Sound(c) && Enters(c, SLASH) && c.nType.Static?
    ensures Sound(n.(children := n.children[0 := c]))
  {
    assert WellFormed(n);
    assert WellFormed(c);
    assert WellFormed(n.(children := n.children[0 := c]));
  }

  lemma {:induction false} BelowChildOk(n: Node, k: nat, np: nat, t: Bytes, full: Bytes, done: nat, h: Handlers, n': Node)
    requires IndexedNode(n) && k < |n.children| == |n.indices| && IsTail(t) && |t| > 0 && np == Colons(t) && t[0] == n.indices[k]
    requires BelowChild(n, k, np, t, full, done, h) == Ok(n')
    ensures BelowAdds(n, n', t, h)
    decreases |t|, 4
  {
    ChildSound(n, k);
    var c1, c', q := ChildWalks(n, k, np, t, full, done, h, n');
    ChildOk(n.children[k], np, t, full, done, h, c1, c');
    ReplaceChild(n, k, c', t, h);
    ReorderAdds(n, n.(children := n.children[k := c']), k, q, t, h);
    PlainPath(n);
    StaticAdds(n, n', t, h);
  }

  function NewChild(np: nat, full: Bytes): Node {
    EmptyNode.(maxParams := np, fullPath := full)
  }

  /** The new child is filled and stands at its place among the children. */
  lemma NewShape(n: Node, np: nat, t: Bytes, full: Bytes, h: Handlers) returns (c: Node, q: nat)
    requires |t| > 0 && |n.indices| == |n.children| && BelowNew(n, np, t, full, h).Ok?
    ensures InsertChild(NewChild(np, full).(priority := 1), np, t, full, h) == Ok(c)
    ensures q == NewPos(n.children + [NewChild(np, full)], |n.children|, 1)
    ensures BelowNew(n, np, t, full, h).n ==
      Reordered(n.(indices := n.indices + [t[0]], children := n.children + [c]), |n.children|, q)
  {
    var k := |n.children|;
    var c1 := NewChild(np, full).(priority := 1);
    var n0 := n.(indices := n.indices + [t[0]], children := n.children + [NewChild(np, full)]);
    q := NewPos(n0.children, k, 1);
    c := InsertChild(c1, np, t, full, h).n;
    ChildPlaced(n0, k, q, c1, c);
    assert n0.children[k := c] == n.children + [c];
  }

  /** The child walked into gained one and stands at its place. */
  lemma ChildShape(n: Node, k: nat, np: nat, t: Bytes, full: Bytes, done: nat, h: Handlers) returns (c1: Node, c: Node, q: nat)
    requires k < |n.children| == |n.indices| && BelowChild(n, k, np, t, full, done, h).Ok?
    ensures c1 == n.children[k].(priority := n.children[k].priority + 1) && Walk(c1, np, t, full, done, h) == Ok(c)
    ensures q == NewPos(n.children, k, c1.priority)
    ensures BelowChild(n, k, np, t, full, done, h).n == Reordered(n.(children := n.children[k := c]), k, q)
  {
    c1 := n.children[k].(priority := n.children[k].priority + 1);
    q := NewPos(n.children, k, c1.priority);
    c := Walk(c1, np, t, full, done, h).n;
    ChildPlaced(n, k, q, c1, c);
  }

  /** A child that was changed and moved, and then changed again at its new place. */
  lemma ChildPlaced(n: Node, k: nat, q: nat, c1: Node, c: Node)
    requires q <= k < |n.children| == |n.indices|
    ensures WithChild(Reordered(n.(children := n.children[k := c1]), k, q), q, Ok(c)) == Ok(Reordered(n.(children := n.children[k := c]), k, q))
    ensures Reordered(n.(children := n.children[k := c1]), k, q).children[q] == c1
  {
    MovedUpdate(n.children[k := c1], k, q, c1);
    MovedUpdate(n.children[k := c1], k, q, c);
    assert n.children[k := c1][k := c] == n.children[k := c];
  }

  /** `n'` is what the walk makes of the node; behind a quantifier, so that the walk is unfolded only where asked for. */
  ghost predicate Walks(n: Node, np: nat, path: Bytes, full: Bytes, done: nat, h: Handlers, n': Node) {
    forall u | u == n :: Walk(u, np, path, full, done, h) == Ok(n')
  }

  lemma WalksTurns(n: Node, np: nat, path: Bytes, full: Bytes, done: nat, h: Handlers, n': Node) returns (i: nat, n1: Node)
    requires Walks(n, np, path, full, done, h, n')
    ensures Turns(n, i, n1, np, path, full, done, h, Ok(n'))
    ensures i == 0 && |n.path| == 0 ==> Height(n1) == Height(n)
  {
    assert Walk(n, np, path, full, done, h) == Ok(n');
    i, n1 := WalkTurns(n, np, path, full, done, h);
  }

  /** The three ways on from a node: to its wildcard, over the slash after a wildcard, to the child with the byte. */
  lemma WildWalks(n: Node, np: nat, t: Bytes, full: Bytes, done: nat, h: Handlers, n': Node) returns (m1: Node, m': Node)
    requires BelowWild(n, np, t, full, done, h) == Ok(n')
    ensures |n.children| > 0 && SameWildcard(n.children[0].path, t)
    ensures m1 == n.children[0].(priority := n.children[0].priority + 1, maxParams := Max(n.children[0].maxParams, np))
    ensures Walks(m1, Less(np), t, full, done, h, m') && n' == n.(children := n.children[0 := m'])
  {
    var m := n.children[0];
    m1 := m.(priority := m.priority + 1, maxParams := Max(m.maxParams, np));
    m' := Walk(m1, Less(np), t, full, done, h).n;
  }

  lemma SlashWalks(n: Node, np: nat, t: Bytes, full: Bytes, done: nat, h: Handlers, n': Node) returns (c1: Node, c': Node)
    requires |n.children| == 1 && BelowSlash(n, np, t, full, done, h) == Ok(n')
    ensures c1 == n.children[0].(priority := n.children[0].priority + 1)
    ensures Walks(c1, np, t, full, done, h, c') && n' == n.(children := n.children[0 := c'])
  {
    c1 := n.children[0].(priority := n.children[0].priority + 1);
    c' := Walk(c1, np, t, full, done, h).n;
  }

  lemma ChildWalks(n: Node, k: nat, np: nat, t: Bytes, full: Bytes, done: nat, h: Handlers, n': Node) returns (c1: Node, c': Node, q: nat)
    requires k < |n.children| == |n.indices| && BelowChild(n, k, np, t, full, done, h) == Ok(n')
    ensures c1 == n.children[k].(priority := n.children[k].priority + 1) && Walks(c1, np, t, full, done, h, c')
    ensures q == NewPos(n.children, k, c1.priority) && n' == Reordered(n.(children := n.children[k := c']), k, q)
  {
    c1, c', q := ChildShape(n, k, np, t, full, done, h);
  }

  lemma {:induction false} BelowNewOk(n: Node, np: nat, t: Bytes, full: Bytes, h: Handlers, n': Node)
    requires IndexedNode(n) && |n.children| == |n.indices| && IsTail(t) && |t| > 0 && np == Colons(t)
    requires !IsWildByte(t[0]) && Find(n.indices, t[0]) == |n.indices|
    requires BelowNew(n, np, t, full, h) == Ok(n')
    ensures BelowAdds(n, n', t, h)
  {
    var c, q := NewShape(n, np, t, full, h);
    var _ := InsertOk(NewChild(np, full).(priority := 1), np, t, full, h);
    AppendChild(n, c, t, h);
    ReorderAdds(n, n.(indices := n.indices + [t[0]], children := n.children + [c]), |n.children|, q, t, h);
    PlainPath(n);
    StaticAdds(n, n', t, h);
  }

  lemma {:induction false} BelowFirstOk(n: Node, np: nat, t: Bytes, full: Bytes, h: Handlers, n': Node)
    requires Sound(n) && n.nType.ParamNode? && |n.children| == 0 == |n.indices|
    requires IsTail(t) && |t| > 0 && t[0] == SLASH && np == Colons(t)
    requires BelowNew(n, np, t, full, h) == Ok(n')
    ensures BelowAdds(n, n', t, h)
  {
    ParamNotWild(n);
    var child := EmptyNode.(maxParams := np, fullPath := full);
    var ch := n.children + [child];
    assert ch[0 := child.(priority := 1)] == [child.(priority := 1)];
    var c' := InsertOk(child.(priority := 1), np, t, full, h);
    assert n'.children == [c'] && n'.indices == [SLASH];
    ParamAdds(n, n', t, h);
    assert WellFormed(n) && WellFormed(c');
    assert WellFormed(n');
  }

  lemma {:induction false} BelowColonOk(n: Node, np: nat, t: Bytes, full: Bytes, h: Handlers, n': Node)
    requires IndexedNode(n) && IsTail(t) && |t| > 0 && np == Colons(t) && t[0] == COLON
    requires InsertChild(n, np, t, full, h) == Ok(n')
    ensures BelowAdds(n, n', t, h)
  {
    assert t[0..] == t;
    var m := WildOk(np, t, full, h);
    NewWild(n, m, t, h);
    PlainPath(n);
    StaticAdds(n, n', t, h);
  }

  lemma {:induction false} PrefixCommon(a: Bytes, b: Bytes)
    requires b <= a
    ensures CommonPrefix(a, b) == |b|
    decreases |a|
  {
    if |b| > 0 {
      assert a[..|b|] == b;
      assert b[1..] <= a[1..] by { assert a == b + a[|b|..]; }
      PrefixCommon(a[1..], b[1..]);
    }
  }

  lemma WildcardTail(path: Bytes, w: Bytes)
    requires IsTail(path) && IsWildcard(w) && SameWildcard(w, path)
    ensures IsTail(path[|w|..]) && Colons(path) == 1 + Colons(path[|w|..])
  {
    SegEndConcat(w, path[|w|..]);
    assert path == w + path[|w|..];
    assert NoWild(path, 1, |w|) by { assert forall k | 1 <= k < |w| :: path[k] == w[k]; }
    WildcardSplit(path);
  }

  // ----- Adding a route to a tree -----

  predicate IsEmpty(n: Node) {
    |n.path| == 0 && |n.children| == 0 && |n.indices| == 0 && !n.wildChild && n.handlers == None && (n.nType.Static? || n.nType.Root?)
  }

  /** A tree as the router holds it: nothing yet, or routes that start with a slash. */
  ghost predicate IsTree(n: Node) {
    IsEmpty(n) || (Sound(n) && (IsCatchTop(n) || (IsOrdinary(n) && n.path[0] == SLASH)))
  }

  /** At most 255 wildcards, so that they can be counted in a byte. */
  predicate Addable(path: Bytes) {
    IsRoute(path) && Colons(path) <= 255
  }

  lemma SameHasColon(m: Node, t: Bytes)
    requires Sound(m) && m.nType.ParamNode? && IsTail(t) && SameWildcard(m.path, t)
    ensures Colons(t) > 0 && |t| > 0 && t[0] == COLON
  {
    assert WellFormed(m);
    WildcardTail(t, m.path);
  }

  lemma RouteIsTail(path: Bytes)
    requires IsRoute(path)
    ensures IsTail(path) && !IsWildByte(path[0])
  {
  }

  lemma AddRouteOk(root: Node, path: Bytes, h: Handlers)
    requires IsTree(root) && Addable(path) && AddRoute(root, path, h).Ok?
    ensures IsTree(AddRoute(root, path, h).n) && Adds(root, AddRoute(root, path, h).n, path, h)
  {
    RouteIsTail(path);
    var n := root.(priority := root.priority + 1);
    if IsEmpty(root) {
      var r := InsertOk(n, Colons(path), path, path, h);
      EmptyAdds(root, r, path, h);
    } else {
      Counted(root, root.priority + 1, root.maxParams);
      RootNotCatch(root, path, h);
      assert CanEnter(n, Colons(path), path);
      var r := AddRoute(root, path, h).n;
      WalkOk(n, Colons(path), path, path, 0, h, r);
      CountedAdds(root, root.priority + 1, root.maxParams, r, path, h);
    }
  }

  lemma RootNotCatch(root: Node, path: Bytes, h: Handlers)
    requires IsTree(root) && !IsEmpty(root) && Addable(path) && AddRoute(root, path, h).Ok?
    ensures IsOrdinary(root) && root.path[0] == SLASH
  {
    if IsCatchTop(root) {
      CatchRefuses(root.(priority := root.priority + 1), Colons(path), path, path, 0, h);
    }
  }

  lemma EmptyAdds(root: Node, r: Node, path: Bytes, h: Handlers)
    requires IsEmpty(root) && Sound(r) && (r.nType.Static? || r.nType.Root?) && Serves(r, path, h)
    ensures Sound(r.(nType := Root)) && Adds(root, r.(nType := Root), path, h)
  {
    assert WellFormed(r);
    var t := r.(nType := Root);
    assert WellFormed(t);
    forall p
      ensures Effect(Get(root, p), Get(t, p), Match(path, p), h)
    {
      assert Get(r, p) == FromMatch(Match(path, p), h);
      if r.path <= p && |p| > |r.path| {
        assert Down(t, p[|r.path|..]) == Down(r, p[|r.path|..]);
      }
    }
  }
}
