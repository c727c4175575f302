/** The shape of every tree, whatever routes it was given: parameters, catch-alls, any number of wildcards. */
module RadixShape {
  import opened Prelude
  import opened RadixTree

  /** A node that takes part of the path as a parameter. */
  predicate IsVar(n: Node) {
    n.nType.ParamNode? || (n.nType.CatchAll? && !n.wildChild)
  }

  /** A parameter's path is a colon and its name, a catch-all's a slash, a star and its name. */
  predicate VarPath(n: Node) {
    |n.path| >= 2 && if n.nType.ParamNode? then n.path[0] == COLON else n.path[0] == SLASH && n.path[1] == STAR
  }

  /** The most wildcards on any way down. */
  function Depth(n: Node): nat
    decreases n
  {
    (if IsVar(n) then 1 else 0) + DepthAll(n.children)
  }

  function DepthAll(ns: seq<Node>): nat
    decreases ns
  {
    if |ns| == 0 then 0 else Max(Depth(ns[0]), DepthAll(ns[1..]))
  }

  ghost predicate Shape(n: Node) {
    if n.wildChild then
      !n.nType.ParamNode? && |n.children| == 1 && IsVar(n.children[0]) && (n.nType.CatchAll? ==> |n.path| == 0)
    else
      && (forall i | 0 <= i < |n.children| :: !IsVar(n.children[i]))
      && (IsVar(n) ==> VarPath(n))
      && (n.nType.ParamNode? ==> |n.children| <= 1)
      && (|n.indices| == |n.children| || (n.nType.ParamNode? && |n.indices| == 0))
  }

  ghost predicate Sane(n: Node)
    decreases n
  {
    Shape(n) && forall i | 0 <= i < |n.children| :: Sane(n.children[i])
  }

  /** `Sane`, met by a proof only where it asks for it. */
  ghost predicate Safe(n: Node) {
    forall u | u == n :: Sane(u)
  }

  /** Children that are found by their first byte. */
  ghost predicate Ordinary(ns: seq<Node>) {
    forall i | 0 <= i < |ns| :: Sane(ns[i]) && !IsVar(ns[i])
  }

  /** A node of the ordinary kind. */
  predicate IsPlain(n: Node) {
    n.nType.Static? || n.nType.Root?
  }

  /** What the walk knows of a path with which it enters a node. */
  predicate Fits(n: Node, path: Bytes) {
    |path| > 0 && (IsVar(n) ==> SameWildcard(n.path, path))
  }

  /** The same kind of node, as its parent sees it. */
  predicate SameKind(n: Node, n': Node) {
    n'.nType == n.nType && (n.nType.CatchAll? ==> n'.wildChild == n.wildChild)
  }

  lemma Recounted(n: Node, priority: nat, maxParams: nat)
    requires Safe(n)
    ensures Safe(n.(priority := priority, maxParams := maxParams))
  {
    assert Sane(n);
    assert Sane(n.(priority := priority, maxParams := maxParams));
  }

  // ----- Bytes -----

  lemma {:induction false} ColonsConcat(a: Bytes, b: Bytes)
    ensures Colons(a + b) == Colons(a) + Colons(b)
    decreases |a|
  {
    if |a| == 0 {
      assert a + b == b;
    } else {
      assert (a + b)[1..] == a[1..] + b;
      ColonsConcat(a[1..], b);
    }
  }

  lemma ColonsCut(path: Bytes, i: nat)
    requires i <= |path|
    ensures Colons(path) == Colons(path[..i]) + Colons(path[i..])
  {
    assert path[..i] + path[i..] == path;
    ColonsConcat(path[..i], path[i..]);
  }

  lemma {:induction false} PlainColons(s: Bytes)
    requires forall i | 0 <= i < |s| :: !IsWildByte(s[i])
    ensures Colons(s) == 0
    decreases |s|
  {
    if |s| > 0 {
      PlainColons(s[1..]);
    }
  }

  lemma OneColon(w: Bytes, k: nat)
    requires k < |w| && IsWildByte(w[k]) && forall i | 0 <= i < |w| && i != k :: !IsWildByte(w[i])
    ensures Colons(w) == 1
  {
    ColonsCut(w, k);
    PlainColons(w[..k]);
    ColonsCut(w[k..], 1);
    assert w[k..][..1] == [w[k]];
    assert Colons([w[k]]) == 1 + Colons([w[k]][1..]);
    PlainColons(w[k..][1..]);
  }

  /** A wildcard node's path uses up a wildcard byte. */
  lemma VarUses(n: Node, path: Bytes)
    requires IsVar(n) && VarPath(n) && n.path <= path
    ensures Colons(path[|n.path|..]) < Colons(path)
  {
    ColonsCut(path, |n.path|);
    assert path[..|n.path|] == n.path;
    var k := if n.nType.ParamNode? then 0 else 1;
    ColonsCut(n.path, k);
    assert Colons(n.path[k..]) >= 1;
  }

  // ----- Insertion -----

  lemma {:induction false} InsertSane(n: Node, np: nat, path: Bytes, full: Bytes, h: Handlers) returns (r: Node)
    requires Sane(n) && IsPlain(n) && !n.wildChild && InsertChild(n, np, path, full, h).Ok?
    ensures r == InsertChild(n, np, path, full, h).n && Sane(r) && r.nType == n.nType
    decreases |path|, 1
  {
    r := InsertChild(n, np, path, full, h).n;
    if np > 0 {
      var i := FindWild(path);
      if path[i] == STAR {
        CatchAllSane(n, np, path, i, full, h);
      } else {
        var m := WildSane(np, path[i..], full, h);
        assert r.children == [m];
      }
    }
  }

  lemma CatchAllSane(n: Node, np: nat, path: Bytes, i: nat, full: Bytes, h: Handlers)
    requires i < |path| && path[i] == STAR && IsPlain(n) && !n.wildChild && CatchAllFits(n, np, path, i)
    ensures Sane(InsertCatchAll(n, np, path, i, full, h).n)
  {
    var all := CatchAllNode(path[i - 1..], full, h);
    assert all.path[0] == path[i - 1] && all.path[1] == path[i];
    assert Sane(all);
    assert Sane(AboveCatchAll(all, full));
  }

  lemma {:induction false} WildSane(np: nat, path: Bytes, full: Bytes, h: Handlers) returns (m: Node)
    requires |path| > 0 && np > 0 && path[0] == COLON && WildNode(np, path, full, h).Ok?
    ensures m == WildNode(np, path, full, h).n && Sane(m) && m.nType.ParamNode?
    decreases |path|, 0
  {
    m := WildNode(np, path, full, h).n;
    var e := SegEnd(path);
    if e < |path| {
      var c := InsertSane(EmptyNode.(maxParams := np - 1, priority := 1, fullPath := full), np - 1, path[e..], full, h);
      assert m.children == [c];
    }
  }

  // ----- The walk -----

  lemma VarArrives(n: Node, path: Bytes, i: nat)
    requires IsVar(n) && Fits(n, path) && i == CommonPrefix(path, n.path)
    ensures i == |n.path| && (i < |path| ==> path[i] == SLASH)
  {
    PrefixCommon(path, n.path);
  }

  lemma ArriveSane(n: Node, np: nat, path: Bytes, i: nat, full: Bytes, done: nat, n1: Node)
    requires Safe(n) && Fits(n, path) && i == CommonPrefix(path, n.path) && n1 == Arrive(n, np, i, full, done)
    ensures Safe(n1) && SameKind(n, n1)
    ensures i < |n.path| ==> IsPlain(n) && !n1.wildChild
    ensures i == |n.path| ==> n1 == n.(maxParams := Max(n.maxParams, np))
    ensures i < |path| ==> FitsBelow(n1, path[i..])
  {
    if IsVar(n) {
      VarArrives(n, path, i);
    }
    if i < |n.path| {
      KindOf(n);
      Recounted(n, n.priority, Max(n.maxParams, np));
      SplitSane(n.(maxParams := Max(n.maxParams, np)), i, if done + i <= |full| then full[..done + i] else []);
    } else {
      Recounted(n, n.priority, Max(n.maxParams, np));
    }
  }

  lemma KindOf(n: Node)
    requires Safe(n) && !IsVar(n) && |n.path| > 0
    ensures IsPlain(n)
  {
    assert Sane(n);
  }

  lemma SplitSane(n: Node, i: nat, full: Bytes)
    requires Safe(n) && IsPlain(n) && i < |n.path|
    ensures Safe(Split(n, i, full))
  {
    assert Sane(n);
    var s := Split(n, i, full);
    assert Sane(s.children[0]);
    assert Sane(s);
  }

  /** What comes below a node of the walk: after a wildcard only a slash. */
  predicate FitsBelow(n: Node, t: Bytes) {
    |t| > 0 && (IsVar(n) ==> t[0] == SLASH)
  }

  lemma {:induction false} WalkSane(n: Node, np: nat, path: Bytes, full: Bytes, done: nat, h: Handlers, n': Node)
    requires Safe(n) && Fits(n, path) && Walks(n, np, path, full, done, h, n')
    ensures Safe(n') && SameKind(n, n')
    decreases |path|, Height(n), 4
  {
    var i, n1 := WalksTurns(n, np, path, full, done, h, n');
    TurnSane(n, i, n1, np, path, full, done, h, n');
  }

  lemma {:induction false} TurnSane(n: Node, i: nat, n1: Node, np: nat, path: Bytes, full: Bytes, done: nat, h: Handlers, n': Node)
    requires Safe(n) && Fits(n, path) && Turns(n, i, n1, np, path, full, done, h, Ok(n'))
    requires i == 0 && |n.path| == 0 ==> Height(n1) == Height(n)
    ensures Safe(n') && SameKind(n, n')
    decreases |path|, Height(n), 3
  {
    ArriveSane(n, np, path, i, full, done, n1);
    if i == |path| {
      LeafSafe(n1, h);
    } else if i == 0 && |n.path| > 0 {
      assert path[0..] == path;
      ApartSane(n1, np, path, full, h, n');
    } else {
      BelowSane(n1, np, path[i..], full, done + i, h, n');
    }
  }

  lemma LeafSafe(n: Node, h: Handlers)
    requires Safe(n)
    ensures Safe(n.(handlers := Some(h)))
  {
    assert Sane(n);
    assert Sane(n.(handlers := Some(h)));
  }

  lemma ApartSane(n: Node, np: nat, t: Bytes, full: Bytes, h: Handlers, n': Node)
    requires Safe(n) && FitsBelow(n, t) && !n.wildChild && Apart(n, np, t, full, h) == Ok(n')
    requires n.nType.ParamNode? ==> |n.children| == 0
    ensures Safe(n') && SameKind(n, n')
  {
    assert Sane(n);
    if !IsWildByte(t[0]) {
      NewSane(n, np, t, full, h, n');
    } else {
      var _ := InsertSane(n, np, t, full, h);
    }
  }

  lemma NewSane(n: Node, np: nat, t: Bytes, full: Bytes, h: Handlers, n': Node)
    requires Sane(n) && |t| > 0 && !n.wildChild && |n.indices| == |n.children| && BelowNew(n, np, t, full, h) == Ok(n')
    requires n.nType.ParamNode? ==> |n.children| == 0
    ensures Safe(n') && SameKind(n, n')
  {
    var c, q := NewShape(n, np, t, full, h);
    NewChildSane(np, t, full, h, c);
    OrdinarySnoc(n, c);
    MovedSane(n.children + [c], |n.children|, q);
    Reshaped(n, n');
  }

  lemma NewChildSane(np: nat, t: Bytes, full: Bytes, h: Handlers, c: Node)
    requires InsertChild(NewChild(np, full).(priority := 1), np, t, full, h) == Ok(c)
    ensures Sane(c) && !IsVar(c)
  {
    var _ := InsertSane(NewChild(np, full).(priority := 1), np, t, full, h);
  }

  lemma OrdinarySnoc(n: Node, c: Node)
    requires Sane(n) && !n.wildChild && Sane(c) && !IsVar(c)
    ensures Ordinary(n.children + [c])
  {
  }

  lemma OrdinaryUpdate(n: Node, k: nat, c: Node)
    requires Sane(n) && !n.wildChild && k < |n.children| && Sane(c) && !IsVar(c)
    ensures Ordinary(n.children[k := c])
  {
  }

  /** The same node with other children of the right kind, each with its index byte. */
  lemma Reshaped(n: Node, n': Node)
    requires Sane(n) && !n.wildChild && Ordinary(n'.children)
    requires n'.nType == n.nType && n'.path == n.path && !n'.wildChild && |n'.indices| == |n'.children|
    requires n.nType.ParamNode? ==> |n'.children| <= 1
    ensures Safe(n')
  {
    assert Sane(n');
  }

  lemma MovedSane(ns: seq<Node>, k: nat, q: nat)
    requires Ordinary(ns) && q <= k < |ns|
    ensures Ordinary(Moved(ns, k, q))
  {
    var r := Moved(ns, k, q);
    forall i | 0 <= i < |r|
      ensures Sane(r[i]) && !IsVar(r[i])
    {
      MovedAt(ns, k, q, i);
    }
  }

  lemma {:induction false} BelowSane(n: Node, np: nat, t: Bytes, full: Bytes, done: nat, h: Handlers, n': Node)
    requires Safe(n) && FitsBelow(n, t) && Below(n, np, t, full, done, h) == Ok(n')
    ensures Safe(n') && SameKind(n, n')
    decreases |t|, Height(n), 2
  {
    ShapeOf(n);
    if n.wildChild {
      var m1, m' := WildWalks(n, np, t, full, done, h, n');
      BelowWildSane(n, np, t, full, done, h, m1, m');
    } else if n.nType.ParamNode? && |n.children| == 1 {
      var c1, c' := SlashWalks(n, np, t, full, done, h, n');
      ChildSane(n, 0, np, t, full, done, h, c1, c');
      SlashSane(n, c');
    } else if Find(n.indices, t[0]) < |n.indices| {
      var k := Find(n.indices, t[0]);
      var c1, c', q := ChildWalks(n, k, np, t, full, done, h, n');
      ChildSane(n, k, np, t, full, done, h, c1, c');
      PlacedSane(n, k, c', q, n');
    } else {
      ApartSane(n, np, t, full, h, n');
    }
  }

  lemma ChildSafe(n: Node, k: nat)
    requires Safe(n) && k < |n.children|
    ensures Safe(n.children[k])
    ensures if n.wildChild then k == 0 && IsVar(n.children[k]) && VarPath(n.children[k]) else !IsVar(n.children[k])
  {
    assert Sane(n);
    assert Sane(n.children[k]);
  }

  lemma ShapeOf(n: Node)
    requires Safe(n)
    ensures Shape(n)
  {
    assert Sane(n);
  }

  lemma {:induction false} BelowWildSane(n: Node, np: nat, t: Bytes, full: Bytes, done: nat, h: Handlers, m1: Node, m': Node)
    requires Safe(n) && n.wildChild && |n.children| > 0 && |t| > 0 && SameWildcard(n.children[0].path, t)
    requires m1 == n.children[0].(priority := m1.priority, maxParams := m1.maxParams) && Walks(m1, Less(np), t, full, done, h, m')
    ensures Safe(n.(children := n.children[0 := m'])) && SameKind(n, n.(children := n.children[0 := m']))
    decreases |t|, Height(n), 1
  {
    HeightBelow(n.children, 0);
    ChildSafe(n, 0);
    Recounted(n.children[0], m1.priority, m1.maxParams);
    WalkSane(m1, Less(np), t, full, done, h, m');
    WildPlaced(n, m');
  }

  lemma WildPlaced(n: Node, m': Node)
    requires Safe(n) && n.wildChild && |n.children| > 0 && Safe(m') && IsVar(m')
    ensures Safe(n.(children := n.children[0 := m']))
  {
    var n' := n.(children := n.children[0 := m']);
    assert Sane(n) && Sane(m');
    assert n'.children == [m'];
    assert Sane(n');
  }

  /** An ordinary child, which gained one. */
  lemma {:induction false} ChildSane(n: Node, k: nat, np: nat, t: Bytes, full: Bytes, done: nat, h: Handlers, c1: Node, c': Node)
    requires Safe(n) && !n.wildChild && k < |n.children| && |t| > 0
    requires c1 == n.children[k].(priority := c1.priority) && Walks(c1, np, t, full, done, h, c')
    ensures Safe(c') && !IsVar(c')
    decreases |t|, Height(n), 1
  {
    HeightBelow(n.children, k);
    ChildSafe(n, k);
    Recounted(n.children[k], c1.priority, c1.maxParams);
    WalkSane(c1, np, t, full, done, h, c');
  }

  lemma SlashSane(n: Node, c': Node)
    requires Safe(n) && n.nType.ParamNode? && |n.children| == 1 && Safe(c') && !IsVar(c')
    ensures Safe(n.(children := n.children[0 := c']))
  {
    var n' := n.(children := n.children[0 := c']);
    assert Sane(n) && Sane(c');
    assert n'.children == [c'];
    assert Sane(n');
  }

  lemma PlacedSane(n: Node, k: nat, c': Node, q: nat, n': Node)
    requires Safe(n) && !n.wildChild && q <= k < |n.children| == |n.indices| && Safe(c') && !IsVar(c')
    requires n' == Reordered(n.(children := n.children[k := c']), k, q)
    ensures Safe(n') && SameKind(n, n')
  {
    assert Sane(n) && Sane(c');
    OrdinaryUpdate(n, k, c');
    MovedSane(n.children[k := c'], k, q);
    Reshaped(n, n');
  }

  /** There is no route to the empty path. */
  predicate Settled(n: Node) {
    |n.path| > 0 || |n.children| > 0 || n.handlers == None
  }

  lemma InsertSettles(n: Node, np: nat, path: Bytes, full: Bytes, h: Handlers)
    requires |path| > 0 && InsertChild(n, np, path, full, h).Ok?
    ensures Settled(InsertChild(n, np, path, full, h).n)
  {
  }

  lemma WalkSettles(n: Node, np: nat, path: Bytes, full: Bytes, done: nat, h: Handlers)
    requires |path| > 0 && Walk(n, np, path, full, done, h).Ok?
    ensures Settled(Walk(n, np, path, full, done, h).n)
  {
    var i := CommonPrefix(path, n.path);
    var n1 := Arrive(n, np, i, full, done);
    if i < |path| && i == 0 && |n.path| > 0 {
      ApartSettles(n1, np, path, full, h);
    } else if i < |path| {
      BelowSettles(n1, np, path[i..], full, done + i, h);
    }
  }

  lemma ApartSettles(n: Node, np: nat, t: Bytes, full: Bytes, h: Handlers)
    requires |t| > 0 && Apart(n, np, t, full, h).Ok?
    ensures Settled(Apart(n, np, t, full, h).n)
  {
    if !IsWildByte(t[0]) && |n.indices| == |n.children| {
      var _, _ := NewShape(n, np, t, full, h);
    } else {
      InsertSettles(n, np, t, full, h);
    }
  }

  lemma BelowSettles(n: Node, np: nat, t: Bytes, full: Bytes, done: nat, h: Handlers)
    requires |t| > 0 && Below(n, np, t, full, done, h).Ok?
    ensures Settled(Below(n, np, t, full, done, h).n)
  {
    if n.wildChild || (n.nType.ParamNode? && t[0] == SLASH && |n.children| == 1) {
    } else if Find(n.indices, t[0]) < |n.indices| == |n.children| {
      var _, _, _ := ChildShape(n, Find(n.indices, t[0]), np, t, full, done, h);
    } else {
      ApartSettles(n, np, t, full, h);
    }
  }

  /** Every tree the router builds, from the empty one on. */
  ghost predicate IsShaped(root: Node) {
    Safe(root) && IsPlain(root) && Settled(root)
  }

  lemma AddRouteShaped(root: Node, path: Bytes, h: Handlers)
    requires IsShaped(root) && |path| > 0 && AddRoute(root, path, h).Ok?
    ensures IsShaped(AddRoute(root, path, h).n)
  {
    var n := root.(priority := root.priority + 1);
    Recounted(root, n.priority, n.maxParams);
    if |n.path| > 0 || |n.children| > 0 {
      WalkSane(n, CountParams(path), path, path, 0, h, AddRoute(root, path, h).n);
      WalkSettles(n, CountParams(path), path, path, 0, h);
    } else {
      assert Sane(n);
      var r := InsertSane(n, CountParams(path), path, path, h);
      InsertSettles(n, CountParams(path), path, path, h);
      assert Sane(r.(nType := Root));
    }
  }
}
