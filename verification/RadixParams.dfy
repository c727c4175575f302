/**
 * The exact value of `maxParams`, in every tree: the largest number of wildcards on any way down from a
 * wildcard node.  Counts are bytes, so a path has at most 255 wildcards; what looks like one after that is text.
 */
module RadixParams {
  import opened Prelude
  import opened RadixTree
  import opened RadixShape

  function Min(a: nat, b: nat): nat {
    if a < b then a else b
  }

  /** Every wildcard node knows how deep it is. */
  ghost predicate Deep(n: Node)
    decreases n
  {
    && (IsVar(n) ==> n.maxParams == Depth(n))
    && forall i | 0 <= i < |n.children| :: Deep(n.children[i])
  }

  /** Below `d` wildcards: wildcard bytes are those of wildcard nodes, until there are 255 of them. */
  ghost predicate Exact(n: Node, d: nat)
    decreases n
  {
    && (if IsVar(n) then Colons(n.path) == 1 && d < 255 else Colons(n.path) == 0 || d == 255)
    && forall i | 0 <= i < |n.children| :: Exact(n.children[i], Beneath(n, d))
  }

  function Beneath(n: Node, d: nat): nat {
    d + if IsVar(n) then 1 else 0
  }

  ghost predicate AllGood(ns: seq<Node>, d: nat) {
    forall i | 0 <= i < |ns| :: Deep(ns[i]) && Exact(ns[i], d)
  }

  /** `ns'` has everything of `ns` and ways of `np` wildcards. */
  ghost predicate Deepened(ns: seq<Node>, ns': seq<Node>, np: nat, d: nat) {
    AllGood(ns', d) && DepthAll(ns') == Max(DepthAll(ns), np)
  }

  // ----- Depths of children -----

  lemma {:induction false} DepthUpdate(ns: seq<Node>, k: nat, c: Node, np: nat)
    requires k < |ns| && Depth(c) == Max(Depth(ns[k]), np)
    ensures DepthAll(ns[k := c]) == Max(DepthAll(ns), np)
    decreases |ns|
  {
    if k == 0 {
      assert ns[k := c][1..] == ns[1..];
    } else {
      assert ns[k := c][1..] == ns[1..][k - 1 := c];
      DepthUpdate(ns[1..], k - 1, c, np);
    }
  }

  lemma {:induction false} DepthConcat(a: seq<Node>, b: seq<Node>)
    ensures DepthAll(a + b) == Max(DepthAll(a), DepthAll(b))
    decreases |a|
  {
    if |a| == 0 {
      assert a + b == b;
    } else {
      assert (a + b)[0] == a[0] && (a + b)[1..] == a[1..] + b;
      DepthConcat(a[1..], b);
    }
  }

  lemma DepthOne(c: Node)
    ensures DepthAll([c]) == Depth(c)
  {
    assert [c][1..] == [];
  }

  lemma DepthFour(a: seq<Node>, b: seq<Node>, c: seq<Node>, d: seq<Node>)
    ensures DepthAll(a + b + c + d) == Max(Max(DepthAll(a), DepthAll(b)), Max(DepthAll(c), DepthAll(d)))
  {
    DepthConcat(a + b + c, d);
    DepthConcat(a + b, c);
    DepthConcat(a, b);
  }

  lemma DepthMoved(ns: seq<Node>, pos: nat, q: nat)
    requires q <= pos < |ns|
    ensures DepthAll(Moved(ns, pos, q)) == DepthAll(ns)
  {
    Unmoved(ns, pos, q);
    DepthFour(ns[..q], [ns[pos]], ns[q..pos], ns[pos + 1..]);
    DepthFour(ns[..q], ns[q..pos], [ns[pos]], ns[pos + 1..]);
  }

  lemma MovedDeep(ns: seq<Node>, ns': seq<Node>, k: nat, q: nat, np: nat, d: nat)
    requires Deepened(ns, ns', np, d) && q <= k < |ns'|
    ensures Deepened(ns, Moved(ns', k, q), np, d)
  {
    DepthMoved(ns', k, q);
    var r := Moved(ns', k, q);
    forall i | 0 <= i < |r|
      ensures Deep(r[i]) && Exact(r[i], d)
    {
      MovedAt(ns', k, q, i);
    }
  }

  lemma ReplaceDeep(ns: seq<Node>, k: nat, c: Node, np: nat, d: nat)
    requires AllGood(ns, d) && k < |ns| && Deep(c) && Exact(c, d) && Depth(c) == Max(Depth(ns[k]), np)
    ensures Deepened(ns, ns[k := c], np, d)
  {
    DepthUpdate(ns, k, c, np);
  }

  lemma AppendDeep(ns: seq<Node>, c: Node, np: nat, d: nat)
    requires AllGood(ns, d) && Deep(c) && Exact(c, d) && Depth(c) == np
    ensures Deepened(ns, ns + [c], np, d)
  {
    DepthConcat(ns, [c]);
    DepthOne(c);
  }

  // ----- Insertion -----

  lemma PlainGood(c: Node, d: nat)
    requires !IsVar(c) && AllGood(c.children, d) && (Colons(c.path) == 0 || d == 255)
    ensures Deep(c) && Exact(c, d) && Depth(c) == DepthAll(c.children)
  {
  }

  lemma {:induction false} InsertDeep(n: Node, np: nat, path: Bytes, full: Bytes, h: Handlers, d: nat) returns (r: Node)
    requires InsertChild(n, np, path, full, h).Ok? && !IsVar(n) && IsPlain(n) && AllGood(n.children, d) && d <= 255
    requires np == Min(Colons(path), 255 - d) && (FindWild(path) == 0 && np > 0 ==> Colons(n.path) == 0 || d == 255)
    ensures r == InsertChild(n, np, path, full, h).n && r.nType == n.nType
    ensures Deepened(n.children, r.children, np, d) && (Colons(r.path) == 0 || d == 255)
    decreases |path|, 1
  {
    r := InsertChild(n, np, path, full, h).n;
    if np > 0 {
      var i := FindWild(path);
      ColonsCut(path, i);
      PlainColons(path[..i]);
      if path[i] == STAR {
        CatchAllDeep(n, np, path, i, full, h, d);
      } else {
        var m := WildDeep(np, path[i..], full, h, d);
        DepthOne(m);
      }
    }
  }

  lemma CatchAllDeep(n: Node, np: nat, path: Bytes, i: nat, full: Bytes, h: Handlers, d: nat)
    requires i == FindWild(path) < |path| && np > 0 && CatchAllFits(n, np, path, i) && d < 255
    ensures AllGood(InsertCatchAll(n, np, path, i, full, h).n.children, d)
    ensures DepthAll(InsertCatchAll(n, np, path, i, full, h).n.children) == np
    ensures Colons(InsertCatchAll(n, np, path, i, full, h).n.path) == 0
  {
    var all := CatchAllNode(path[i - 1..], full, h);
    PlainColons(path[..i - 1]);
    CatchAllText(path, i);
    CatchNodes(AboveCatchAll(all, full), all, d);
    DepthOne(AboveCatchAll(all, full));
  }

  lemma CatchNodes(above: Node, all: Node, d: nat)
    requires d < 255 && all.nType.CatchAll? && !all.wildChild && |all.children| == 0 && all.maxParams == 1 && Colons(all.path) == 1
    requires above.nType.CatchAll? && above.wildChild && |above.path| == 0 && above.children == [all]
    ensures Deep(above) && Exact(above, d) && Depth(above) == 1
  {
    DepthOne(all);
    assert Deep(all) && Exact(all, d);
  }

  lemma CatchAllText(path: Bytes, i: nat)
    requires i == FindWild(path) < |path| && i > 0 && NoWild(path, i + 1, |path|)
    ensures Colons(path[i - 1..]) == 1
  {
    OneColon(path[i - 1..], 1);
  }

  lemma {:induction false} WildDeep(np: nat, path: Bytes, full: Bytes, h: Handlers, d: nat) returns (m: Node)
    requires |path| > 0 && path[0] == COLON && np > 0 && d < 255 && WildNode(np, path, full, h).Ok?
    requires np == Min(Colons(path), 255 - d)
    ensures m == WildNode(np, path, full, h).n && m.nType.ParamNode? && Deep(m) && Exact(m, d) && Depth(m) == np
    decreases |path|, 0
  {
    m := WildNode(np, path, full, h).n;
    var e := SegEnd(path);
    WildCounts(path, e, np, d);
    if e == |path| {
      assert path[..e] == path;
      ParamAlone(m, d);
    } else {
      var c := InsertDeep(EmptyNode.(maxParams := np - 1, priority := 1, fullPath := full), np - 1, path[e..], full, h, d + 1);
      ParamOver(m, c, np, d);
    }
  }

  /** The wildcard takes one of the count, and the rest has the others. */
  lemma WildCounts(path: Bytes, e: nat, np: nat, d: nat)
    requires 2 <= e <= |path| && path[0] == COLON && NoWild(path, 1, e) && d < 255 && np == Min(Colons(path), 255 - d)
    ensures Colons(path[..e]) == 1 && np > 0 && np - 1 == Min(Colons(path[e..]), 255 - (d + 1))
    ensures e == |path| ==> np == 1
  {
    ParamText(path, e);
    ColonsCut(path, e);
  }

  lemma ParamAlone(m: Node, d: nat)
    requires m.nType.ParamNode? && |m.children| == 0 && m.maxParams == 1 && Colons(m.path) == 1 && d < 255
    ensures Deep(m) && Exact(m, d) && Depth(m) == 1
  {
  }

  lemma ParamOver(m: Node, c: Node, np: nat, d: nat)
    requires m.nType.ParamNode? && m.children == [c] && m.maxParams == np > 0 && Colons(m.path) == 1 && d < 255
    requires !IsVar(c) && Deepened([], c.children, np - 1, d + 1) && (Colons(c.path) == 0 || d + 1 == 255)
    ensures Deep(m) && Exact(m, d) && Depth(m) == np
  {
    PlainGood(c, d + 1);
    DepthOne(c);
  }

  lemma ParamText(path: Bytes, e: nat)
    requires 2 <= e <= |path| && path[0] == COLON && NoWild(path, 1, e)
    ensures Colons(path[..e]) == 1
  {
    OneColon(path[..e], 0);
  }

  // ----- The walk -----

  /** A node about to get a route with `np` wildcards below it. */
  ghost predicate Ready(n: Node, np: nat, d: nat) {
    && AllGood(n.children, Beneath(n, d))
    && (if IsVar(n) then Colons(n.path) == 1 && d < 255 else Colons(n.path) == 0 || d == 255)
    && (IsVar(n) ==> n.maxParams == Max(Depth(n), np + 1))
  }

  /** `Ready`, met by a proof only where it asks for it. */
  ghost predicate Awaits(n: Node, np: nat, d: nat) {
    forall u | u == n :: Ready(u, np, d)
  }

  /** The count at a node below `d` wildcards: the wildcard bytes to come, as far as 255 wildcards go. */
  ghost predicate Counts(n: Node, np: nat, path: Bytes, d: nat) {
    d <= 255 && if IsVar(n) then d < 255 && np + 1 == Min(Colons(path), 255 - d) else np == Min(Colons(path), 255 - d)
  }

  ghost predicate CountsBelow(np: nat, t: Bytes, d: nat) {
    d <= 255 && np == Min(Colons(t), 255 - d)
  }

  lemma ArriveDeep(n: Node, np: nat, path: Bytes, i: nat, full: Bytes, done: nat, n1: Node, d: nat)
    requires Safe(n) && Fits(n, path) && i == CommonPrefix(path, n.path) && n1 == Arrive(n, np, i, full, done)
    requires Awaits(n, np, d) && Counts(n, np, path, d)
    ensures Awaits(n1, np, d) && Depth(n1) == Depth(n) && DepthAll(n1.children) == DepthAll(n.children)
    ensures CountsBelow(np, path[i..], Beneath(n, d))
  {
    if IsVar(n) {
      VarArrives(n, path, i);
      ArriveVar(n, np, path, d);
    } else {
      ArriveStatic(n, np, path, i, d);
      if i < |n.path| {
        KindOf(n);
        SplitDeep(n.(maxParams := Max(n.maxParams, np)), i, if done + i <= |full| then full[..done + i] else [], np, d);
      }
    }
  }

  lemma ArriveVar(n: Node, np: nat, path: Bytes, d: nat)
    requires IsVar(n) && n.path <= path && Awaits(n, np, d) && Counts(n, np, path, d)
    ensures n.(maxParams := Max(n.maxParams, np)) == n && CountsBelow(np, path[|n.path|..], Beneath(n, d))
  {
    assert Ready(n, np, d);
    ColonsCut(path, |n.path|);
    assert path[..|n.path|] == n.path;
  }

  lemma ArriveStatic(n: Node, np: nat, path: Bytes, i: nat, d: nat)
    requires !IsVar(n) && i <= |n.path| && i <= |path| && path[..i] == n.path[..i] && Awaits(n, np, d) && Counts(n, np, path, d)
    ensures CountsBelow(np, path[i..], d)
    ensures AllGood(n.children, d) && (Colons(n.path) == 0 || d == 255)
    ensures Awaits(n.(maxParams := Max(n.maxParams, np)), np, d) && Depth(n.(maxParams := Max(n.maxParams, np))) == Depth(n)
  {
    assert Ready(n, np, d);
    ColonsCut(path, i);
    ColonsCut(n.path, i);
    assert Ready(n.(maxParams := Max(n.maxParams, np)), np, d);
  }

  lemma SplitDeep(n: Node, i: nat, full: Bytes, np: nat, d: nat)
    requires IsPlain(n) && i < |n.path| && AllGood(n.children, d) && (Colons(n.path) == 0 || d == 255)
    ensures Awaits(Split(n, i, full), np, d) && Depth(Split(n, i, full)) == Depth(n)
    ensures DepthAll(Split(n, i, full).children) == DepthAll(n.children)
  {
    ColonsCut(n.path, i);
    var s := Split(n, i, full);
    PlainGood(s.children[0], d);
    DepthOne(s.children[0]);
    assert Ready(s, np, d);
  }

  lemma Deepens(n0: Node, n: Node, n': Node, np: nat, d: nat)
    requires Awaits(n, np, d) && SameKind(n, n') && SameKind(n0, n) && Depth(n0) == Depth(n) && Left(n, n', np, d)
    ensures Went(n0, n', np, d)
  {
    assert Ready(n, np, d) && Leaves(n, n', np, d);
    assert Deep(n') && Exact(n', d) && Depth(n') == Max(Depth(n), np + if IsVar(n) then 1 else 0);
  }

  /** What the walk makes of a node, as its parent sees it. */
  ghost predicate Went(n: Node, n': Node, np: nat, d: nat) {
    forall u | u == n' :: Deep(u) && Exact(u, d) && Depth(u) == Max(Depth(n), np + if IsVar(n) then 1 else 0)
  }

  /** What the walk leaves of a node. */
  ghost predicate Left(n: Node, n': Node, np: nat, d: nat) {
    forall u | u == n' :: Leaves(n, u, np, d)
  }

  ghost predicate Leaves(n: Node, n': Node, np: nat, d: nat) {
    && Deepened(n.children, n'.children, np, Beneath(n, d)) && n'.maxParams == n.maxParams
    && (IsVar(n) ==> n'.path == n.path) && (!IsVar(n) ==> Colons(n'.path) == 0 || d == 255)
  }

  lemma {:induction false} WalkDeep(n: Node, np: nat, path: Bytes, full: Bytes, done: nat, h: Handlers, n': Node, d: nat)
    requires Safe(n) && Fits(n, path) && Awaits(n, np, d) && Counts(n, np, path, d) && Walks(n, np, path, full, done, h, n')
    ensures SameKind(n, n') && Went(n, n', np, d)
    decreases |path|, Height(n), 5
  {
    WalkSane(n, np, path, full, done, h, n');
    var i, n1 := WalksTurns(n, np, path, full, done, h, n');
    TurnDeep(n, i, n1, np, path, full, done, h, n', d);
  }

  lemma {:induction false} TurnDeep(n: Node, i: nat, n1: Node, np: nat, path: Bytes, full: Bytes, done: nat, h: Handlers, n': Node, d: nat)
    requires Safe(n) && Fits(n, path) && Awaits(n, np, d) && Counts(n, np, path, d)
    requires Turns(n, i, n1, np, path, full, done, h, Ok(n')) && SameKind(n, n')
    requires i == 0 && |n.path| == 0 ==> Height(n1) == Height(n)
    ensures Went(n, n', np, d)
    decreases |path|, Height(n), 4
  {
    ArriveSane(n, np, path, i, full, done, n1);
    ArriveDeep(n, np, path, i, full, done, n1, d);
    TurnLeaves(n, i, n1, np, path, full, done, h, n', d);
    Deepens(n, n1, n', np, d);
  }

  lemma {:induction false} TurnLeaves(n: Node, i: nat, n1: Node, np: nat, path: Bytes, full: Bytes, done: nat, h: Handlers, n': Node, d: nat)
    requires Turns(n, i, n1, np, path, full, done, h, Ok(n')) && Safe(n1) && Awaits(n1, np, d)
    requires i < |n.path| ==> IsPlain(n1) && !n1.wildChild
    requires i < |path| ==> FitsBelow(n1, path[i..])
    requires CountsBelow(np, path[i..], Beneath(n1, d)) && (i == 0 && |n.path| == 0 ==> Height(n1) == Height(n))
    ensures Left(n1, n', np, d)
    decreases |path|, Height(n), 3
  {
    if i == |path| {
      NoneLeft(path, n1, n', np, d);
    } else if i == 0 && |n.path| > 0 {
      assert path[0..] == path;
      ApartDeep(n1, np, path, full, h, n', d);
    } else {
      BelowDeep(n1, np, path[i..], full, done + i, h, n', d);
    }
  }

  lemma NoneLeft(path: Bytes, n: Node, n': Node, np: nat, d: nat)
    requires CountsBelow(np, path[|path|..], Beneath(n, d)) && Awaits(n, np, d) && n' == n.(handlers := n'.handlers)
    ensures Left(n, n', np, d)
  {
    assert Ready(n, np, d);
    assert Leaves(n, n', np, d);
  }

  lemma ApartDeep(n: Node, np: nat, t: Bytes, full: Bytes, h: Handlers, n': Node, d: nat)
    requires Safe(n) && FitsBelow(n, t) && !n.wildChild && Awaits(n, np, d) && CountsBelow(np, t, Beneath(n, d))
    requires n.nType.ParamNode? ==> |n.children| == 0
    requires Apart(n, np, t, full, h) == Ok(n')
    ensures Left(n, n', np, d)
  {
    assert Sane(n) && Ready(n, np, d);
    if !IsWildByte(t[0]) {
      NewDeep(n, np, t, full, h, n', Beneath(n, d));
    } else {
      var _ := InsertDeep(n, np, t, full, h, d);
    }
    assert Leaves(n, n', np, d);
  }

  lemma NewDeep(n: Node, np: nat, t: Bytes, full: Bytes, h: Handlers, n': Node, d: nat)
    requires |t| > 0 && !IsWildByte(t[0]) && AllGood(n.children, d) && CountsBelow(np, t, d)
    requires |n.indices| == |n.children| && BelowNew(n, np, t, full, h) == Ok(n')
    ensures Deepened(n.children, n'.children, np, d) && n'.maxParams == n.maxParams && n'.path == n.path
  {
    var c, q := NewShape(n, np, t, full, h);
    NewChildDeep(np, t, full, h, c, d);
    AppendDeep(n.children, c, np, d);
    MovedDeep(n.children, n.children + [c], |n.children|, q, np, d);
  }

  lemma NewChildDeep(np: nat, t: Bytes, full: Bytes, h: Handlers, c: Node, d: nat)
    requires InsertChild(NewChild(np, full).(priority := 1), np, t, full, h) == Ok(c) && CountsBelow(np, t, d)
    ensures Deep(c) && Exact(c, d) && Depth(c) == np
  {
    NewChildSane(np, t, full, h, c);
    var _ := InsertDeep(NewChild(np, full).(priority := 1), np, t, full, h, d);
    PlainGood(c, d);
  }

  lemma {:induction false} BelowDeep(n: Node, np: nat, t: Bytes, full: Bytes, done: nat, h: Handlers, n': Node, d: nat)
    requires Safe(n) && FitsBelow(n, t) && Awaits(n, np, d) && CountsBelow(np, t, Beneath(n, d))
    requires Below(n, np, t, full, done, h) == Ok(n')
    ensures Left(n, n', np, d)
    decreases |t|, Height(n), 2
  {
    ShapeOf(n);
    if n.wildChild {
      var m1, m' := WildWalks(n, np, t, full, done, h, n');
      BelowWildDeep(n, np, t, full, done, h, m1, m', d);
    } else if n.nType.ParamNode? && |n.children| == 1 {
      var c1, c' := SlashWalks(n, np, t, full, done, h, n');
      ChildDeep(n, 0, np, t, full, done, h, c1, c', d);
      FirstDeep(n, c', np, d);
    } else if Find(n.indices, t[0]) < |n.indices| {
      var k := Find(n.indices, t[0]);
      var c1, c', q := ChildWalks(n, k, np, t, full, done, h, n');
      ChildDeep(n, k, np, t, full, done, h, c1, c', d);
      PlacedDeep(n, k, c', q, n', np, d);
    } else {
      ApartDeep(n, np, t, full, h, n', d);
    }
  }

  /** A child that has been given ways of `np` wildcards. */
  ghost predicate Grew(c: Node, c': Node, np: nat, d: nat) {
    Deep(c') && Exact(c', d) && Depth(c') == Max(Depth(c), np)
  }

  lemma FirstDeep(n: Node, c': Node, np: nat, d: nat)
    requires Awaits(n, np, d) && |n.children| > 0 && Grew(n.children[0], c', np, Beneath(n, d))
    ensures Left(n, n.(children := n.children[0 := c']), np, d)
  {
    assert Ready(n, np, d);
    ReplaceDeep(n.children, 0, c', np, Beneath(n, d));
    assert Leaves(n, n.(children := n.children[0 := c']), np, d);
  }

  lemma PlacedDeep(n: Node, k: nat, c': Node, q: nat, n': Node, np: nat, d: nat)
    requires Awaits(n, np, d) && q <= k < |n.children| == |n.indices| && Grew(n.children[k], c', np, Beneath(n, d))
    requires n' == Reordered(n.(children := n.children[k := c']), k, q)
    ensures Left(n, n', np, d)
  {
    assert Ready(n, np, d);
    ReplaceDeep(n.children, k, c', np, Beneath(n, d));
    MovedDeep(n.children, n.children[k := c'], k, q, np, Beneath(n, d));
    assert Leaves(n, n', np, d);
  }

  /** An ordinary child, which gained one. */
  lemma {:induction false} ChildDeep(n: Node, k: nat, np: nat, t: Bytes, full: Bytes, done: nat, h: Handlers, c1: Node, c': Node, d: nat)
    requires Safe(n) && !n.wildChild && k < |n.children| && |t| > 0 && Awaits(n, np, d) && CountsBelow(np, t, Beneath(n, d))
    requires c1 == n.children[k].(priority := c1.priority) && Walks(c1, np, t, full, done, h, c')
    ensures Grew(n.children[k], c', np, Beneath(n, d))
    decreases |t|, Height(n), 1
  {
    HeightBelow(n.children, k);
    ChildSafe(n, k);
    Recounted(n.children[k], c1.priority, c1.maxParams);
    ChildAwaits(n, k, c1, np, d);
    WalkDeep(c1, np, t, full, done, h, c', Beneath(n, d));
    WentGrew(n.children[k], c1, c', np, Beneath(n, d));
  }

  lemma ChildAwaits(n: Node, k: nat, c1: Node, np: nat, d: nat)
    requires Awaits(n, np, d) && k < |n.children| && !IsVar(n.children[k]) && c1 == n.children[k].(priority := c1.priority)
    ensures Awaits(c1, np, Beneath(n, d)) && Depth(c1) == Depth(n.children[k])
  {
    assert Ready(n, np, d);
    var c := n.children[k];
    assert Deep(c) && Exact(c, Beneath(n, d));
    assert Ready(c1, np, Beneath(n, d));
  }

  lemma WentGrew(c: Node, c1: Node, c': Node, np: nat, d: nat)
    requires Went(c1, c', np, d) && !IsVar(c1) && Depth(c1) == Depth(c)
    ensures Grew(c, c', np, d)
  {
    assert Deep(c');
  }

  lemma {:induction false} BelowWildDeep(n: Node, np: nat, t: Bytes, full: Bytes, done: nat, h: Handlers, m1: Node, m': Node, d: nat)
    requires Safe(n) && n.wildChild && |n.children| > 0 && |t| > 0 && Awaits(n, np, d) && CountsBelow(np, t, d) && !IsVar(n)
    requires m1 == n.children[0].(priority := m1.priority, maxParams := Max(n.children[0].maxParams, np))
    requires SameWildcard(n.children[0].path, t) && Walks(m1, Less(np), t, full, done, h, m')
    ensures Left(n, n.(children := n.children[0 := m']), np, d)
    decreases |t|, Height(n), 1
  {
    HeightBelow(n.children, 0);
    ChildSafe(n, 0);
    Recounted(n.children[0], m1.priority, m1.maxParams);
    WildAwaits(n, m1, np, t, d);
    WalkDeep(m1, np - 1, t, full, done, h, m', d);
    WildGrew(n.children[0], m1, m', np, d);
    FirstDeep(n, m', np, d);
  }

  lemma WildAwaits(n: Node, m1: Node, np: nat, t: Bytes, d: nat)
    requires Awaits(n, np, d) && !IsVar(n) && |n.children| > 0 && IsVar(n.children[0]) && n.children[0].path <= t
    requires CountsBelow(np, t, d) && m1 == n.children[0].(priority := m1.priority, maxParams := Max(n.children[0].maxParams, np))
    ensures np > 0 && Less(np) == np - 1 && Awaits(m1, np - 1, d) && Counts(m1, np - 1, t, d) && Depth(m1) == Depth(n.children[0])
  {
    assert Ready(n, np, d);
    assert Deep(n.children[0]) && Exact(n.children[0], d);
    VarAwaits(n.children[0], m1, np, t, d);
  }

  lemma WildGrew(m: Node, m1: Node, m': Node, np: nat, d: nat)
    requires np > 0 && Went(m1, m', np - 1, d) && IsVar(m1) && Depth(m1) == Depth(m)
    ensures Grew(m, m', np, d)
  {
    assert Deep(m');
  }

  /** There is a wildcard left to count for a wildcard node the path goes on with. */
  lemma VarAwaits(m: Node, m1: Node, np: nat, t: Bytes, d: nat)
    requires IsVar(m) && Deep(m) && Exact(m, d) && m.path <= t && CountsBelow(np, t, d)
    requires m1 == m.(priority := m1.priority, maxParams := Max(m.maxParams, np))
    ensures np > 0 && Less(np) == np - 1 && Awaits(m1, np - 1, d) && Counts(m1, np - 1, t, d) && Depth(m1) == Depth(m)
  {
    ColonsCut(t, |m.path|);
    assert t[..|m.path|] == m.path;
    assert Ready(m1, np - 1, d);
  }

  // ----- Trees -----

  ghost predicate IsDeep(root: Node) {
    IsShaped(root) && Deep(root) && Exact(root, 0)
  }

  lemma EmptyIsDeep()
    ensures IsDeep(EmptyNode)
  {
    assert Sane(EmptyNode);
  }

  /** Any path may be added: with parameters anywhere, a catch-all, any number of wildcards. */
  lemma AddRouteDeep(root: Node, path: Bytes, h: Handlers)
    requires IsDeep(root) && |path| > 0 && AddRoute(root, path, h).Ok?
    ensures IsDeep(AddRoute(root, path, h).n)
    ensures Depth(AddRoute(root, path, h).n) == Max(Depth(root), CountParams(path))
  {
    AddRouteShaped(root, path, h);
    var np := CountParams(path);
    var n := root.(priority := root.priority + 1);
    Recounted(root, n.priority, n.maxParams);
    if |n.path| > 0 || |n.children| > 0 {
      assert Depth(n) == Depth(root);
      assert Ready(n, np, 0);
      var n' := AddRoute(root, path, h).n;
      WalkDeep(n, np, path, path, 0, h, n', 0);
      assert Deep(n');
    } else {
      var r := InsertDeep(n, np, path, path, h, 0);
      PlainGood(r.(nType := Root), 0);
    }
  }
}
