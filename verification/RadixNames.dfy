/** Trees of static routes: the full path a node reports is the path that leads to it. */
module RadixNames {
  import opened Prelude
  import opened RadixTree

  /** No wildcards, and every node knows its path from the root. */
  ghost predicate Named(n: Node, prefix: Bytes)
    decreases n
  {
    && !n.nType.ParamNode? && !n.wildChild && n.fullPath == prefix + n.path
    && forall i | 0 <= i < |n.children| :: Named(n.children[i], prefix + n.path)
  }

  ghost predicate Names(n: Node, prefix: Bytes) {
    forall u | u == n :: Named(u, prefix)
  }

  ghost predicate AllNamed(ns: seq<Node>, prefix: Bytes) {
    forall i | 0 <= i < |ns| :: Named(ns[i], prefix)
  }

  /** The full path that `getValue` reports. */
  function GetFull(n: Node, p: Bytes): Option<Bytes>
    decreases n
  {
    if !(n.path <= p) then None
    else if |p| == |n.path| then (if n.handlers.Some? then Some(n.fullPath) else None)
    else
      var rest := p[|n.path|..];
      var i := Find(n.indices, rest[0]);
      if i < |n.indices| && i < |n.children| then GetFull(n.children[i], rest) else None
  }

  /** A path that is found is reported as it is. */
  lemma {:induction false} FullIsPath(n: Node, prefix: Bytes, p: Bytes)
    requires Named(n, prefix)
    ensures GetFull(n, p) == if Get(n, p).Found? then Some(prefix + p) else None
    decreases n
  {
    if n.path <= p && |p| == |n.path| {
      assert p == n.path;
    }
    if n.path <= p && |p| > |n.path| {
      var rest := p[|n.path|..];
      var i := Find(n.indices, rest[0]);
      if i < |n.indices| && i < |n.children| {
        FullIsPath(n.children[i], prefix + n.path, rest);
        assert prefix + n.path + rest == prefix + p;
      }
    }
  }

  lemma NamedAgain(n: Node, n': Node, prefix: Bytes)
    requires Named(n, prefix) && n'.path == n.path && n'.fullPath == n.fullPath && n'.nType == n.nType && !n'.wildChild
    requires AllNamed(n'.children, prefix + n.path)
    ensures Named(n', prefix)
  {
  }

  lemma Regroup(prefix: Bytes, a: Bytes, i: nat)
    requires i <= |a|
    ensures prefix + a[..i] + a[i..] == prefix + a
  {
  }

  lemma TakeBoth(prefix: Bytes, path: Bytes, i: nat)
    requires i <= |path|
    ensures (prefix + path)[..|prefix| + i] == prefix + path[..i]
  {
  }

  /** The lower half of a split node. */
  lemma LowerNamed(n: Node, child: Node, upper: Bytes, prefix: Bytes)
    requires Named(n, prefix) && upper + child.path == prefix + n.path && child.fullPath == n.fullPath
    requires child.children == n.children && child.nType.Static? && !child.wildChild
    ensures Named(child, upper)
  {
  }

  lemma Rejoined(prefix: Bytes, path: Bytes, i: nat, front: Bytes)
    requires i <= |path| && front == path[..i]
    ensures prefix + path == prefix + front + path[i..] && |prefix + front| == |prefix| + i
  {
    Regroup(prefix, path, i);
  }

  lemma NamesPlain(n: Node, prefix: Bytes)
    requires Names(n, prefix)
    ensures !n.nType.ParamNode? && !n.wildChild
  {
    assert Named(n, prefix);
  }

  lemma ArriveNamed(n: Node, i: nat, path: Bytes, full: Bytes, prefix: Bytes)
    requires Names(n, prefix) && 0 < i <= |n.path| && full == prefix + path && i <= |path| && path[..i] == n.path[..i]
    ensures Names(Arrive(n, 0, i, full, |prefix|), prefix)
  {
    var r := Arrive(n, 0, i, full, |prefix|);
    assert Named(n, prefix);
    if i < |n.path| {
      Regroup(prefix, n.path, i);
      TakeBoth(prefix, path, i);
      LowerNamed(n, r.children[0], prefix + n.path[..i], prefix);
    } else {
      NamedAgain(n, r, prefix);
    }
    assert Named(r, prefix);
  }

  lemma LeafNamed(n: Node, n': Node, prefix: Bytes)
    requires Names(n, prefix) && n' == n.(handlers := n'.handlers)
    ensures Names(n', prefix)
  {
    assert Named(n, prefix);
    assert Named(n', prefix);
  }

  lemma {:induction false} WalkNamed(n: Node, path: Bytes, full: Bytes, prefix: Bytes, h: Handlers, n': Node)
    requires Names(n, prefix) && Entered(n, 0, path) && full == prefix + path
    requires Walks(n, 0, path, full, |prefix|, h, n')
    ensures Names(n', prefix)
    decreases |path|, 1
  {
    var i, n1 := WalksTurns(n, 0, path, full, |prefix|, h, n');
    TurnNamed(n, i, n1, path, full, prefix, h, n');
  }

  lemma {:induction false} TurnNamed(n: Node, i: nat, n1: Node, path: Bytes, full: Bytes, prefix: Bytes, h: Handlers, n': Node)
    requires Names(n, prefix) && Entered(n, 0, path) && full == prefix + path
    requires Turns(n, i, n1, 0, path, full, |prefix|, h, Ok(n'))
    ensures Names(n', prefix)
    decreases |path|, 0
  {
    ArriveOk(n, 0, path, full, |prefix|, i, n1);
    ArriveNamed(n, i, path, full, prefix);
    if i == |path| {
      LeafNamed(n1, n', prefix);
    } else {
      NamesPlain(n1, prefix);
      AfterCommon(n, 0, path, i);
      Rejoined(prefix, path, i, n1.path);
      BelowNamed(n1, path[i..], full, prefix, h, n');
    }
  }

  lemma {:induction false} BelowNamed(n: Node, t: Bytes, full: Bytes, prefix: Bytes, h: Handlers, n': Node)
    requires Names(n, prefix) && IndexedNode(n) && IsTail(t) && |t| > 0 && Colons(t) == 0 && full == prefix + n.path + t
    requires Below(n, 0, t, full, |prefix + n.path|, h) == Ok(n')
    ensures Names(n', prefix)
    decreases |t|, 3
  {
    NoColons(t);
    IndexedSame(n);
    NamesPlain(n, prefix);
    var k := Find(n.indices, t[0]);
    if k < |n.indices| {
      BelowChildNamed(n, k, t, full, prefix, h, n');
    } else {
      BelowNewNamed(n, t, full, prefix, h, n');
    }
  }

  lemma {:induction false} BelowChildNamed(n: Node, k: nat, t: Bytes, full: Bytes, prefix: Bytes, h: Handlers, n': Node)
    requires Names(n, prefix) && IndexedNode(n) && k < |n.children| == |n.indices|
    requires IsTail(t) && |t| > 0 && Colons(t) == 0 && t[0] == n.indices[k] && full == prefix + n.path + t
    requires BelowChild(n, k, 0, t, full, |prefix + n.path|, h) == Ok(n')
    ensures Names(n', prefix)
    decreases |t|, 2
  {
    var here := prefix + n.path;
    var c1, c', q := ChildWalks(n, k, 0, t, full, |here|, h, n');
    ChildSound(n, k);
    var c := n.children[k];
    Counted(c, c1.priority, c1.maxParams);
    NotCatch(c, c1, 0, t, full, |here|, h, c');
    assert CanEnter(c1, 0, t);
    ChildNames(n, k, c1, prefix);
    WalkNamed(c1, t, full, here, h, c');
    PlacedNames(n, k, q, c', n', prefix);
  }

  lemma ChildNames(n: Node, k: nat, c1: Node, prefix: Bytes)
    requires Names(n, prefix) && k < |n.children| && c1 == n.children[k].(priority := c1.priority)
    ensures Names(c1, prefix + n.path)
  {
    assert Named(n, prefix);
    NamedAgain(n.children[k], c1, prefix + n.path);
    assert Named(c1, prefix + n.path);
  }

  lemma PlacedNames(n: Node, k: nat, q: nat, c': Node, n': Node, prefix: Bytes)
    requires Names(n, prefix) && q <= k < |n.children| == |n.indices| && Names(c', prefix + n.path)
    requires n' == Reordered(n.(children := n.children[k := c']), k, q)
    ensures Names(n', prefix)
  {
    assert Named(n, prefix) && Named(c', prefix + n.path);
    MovedNamed(n.children[k := c'], prefix + n.path, k, q);
    NamedAgain(n, n', prefix);
    assert Named(n', prefix);
  }

  lemma MovedNamed(ns: seq<Node>, prefix: Bytes, k: nat, q: nat)
    requires AllNamed(ns, prefix) && q <= k < |ns|
    ensures AllNamed(Moved(ns, k, q), prefix)
  {
    var r := Moved(ns, k, q);
    forall i | 0 <= i < |r|
      ensures Named(r[i], prefix)
    {
      MovedAt(ns, k, q, i);
    }
  }

  lemma BelowNewNamed(n: Node, t: Bytes, full: Bytes, prefix: Bytes, h: Handlers, n': Node)
    requires Names(n, prefix) && |n.children| == |n.indices| && |t| > 0 && full == prefix + n.path + t
    requires BelowNew(n, 0, t, full, h) == Ok(n')
    ensures Names(n', prefix)
  {
    assert Named(n, prefix);
    var c, q := NewShape(n, 0, t, full, h);
    assert Named(c, prefix + n.path);
    MovedNamed(n.children + [c], prefix + n.path, |n.children|, q);
    NamedAgain(n, n', prefix);
    assert Named(n', prefix);
  }

  /** A tree that has only ever been given static routes. */
  lemma AddRouteNamed(root: Node, path: Bytes, h: Handlers)
    requires IsTree(root) && (IsEmpty(root) || Named(root, [])) && Addable(path) && Colons(path) == 0
    requires AddRoute(root, path, h).Ok?
    ensures Named(AddRoute(root, path, h).n, [])
  {
    if IsEmpty(root) {
      FirstNamed(root, path, h);
    } else {
      RootNotCatch(root, path, h);
      LaterNamed(root, path, h);
      assert Named(AddRoute(root, path, h).n, []);
    }
  }

  lemma LaterNamed(root: Node, path: Bytes, h: Handlers)
    requires Sound(root) && IsOrdinary(root) && root.path[0] == SLASH && Names(root, []) && Addable(path) && Colons(path) == 0
    requires AddRoute(root, path, h).Ok?
    ensures Names(AddRoute(root, path, h).n, [])
  {
    var n := root.(priority := root.priority + 1);
    RouteEnters(root, n, path);
    CountedNames(root, n);
    EmptyPrefix(path);
    WalkNamed(n, path, path, [], h, AddRoute(root, path, h).n);
  }

  lemma RouteEnters(root: Node, n: Node, path: Bytes)
    requires Sound(root) && IsOrdinary(root) && root.path[0] == SLASH && Addable(path) && n == root.(priority := n.priority)
    ensures Entered(n, Colons(path), path)
  {
    RouteIsTail(path);
    Counted(root, n.priority, n.maxParams);
    assert CanEnter(n, Colons(path), path);
  }

  lemma CountedNames(root: Node, n: Node)
    requires Names(root, []) && n == root.(priority := n.priority)
    ensures Names(n, [])
  {
    assert Named(root, []);
    NamedAgain(root, n, []);
    assert Named(n, []);
  }

  lemma EmptyPrefix(path: Bytes)
    ensures [] + path == path
  {
  }

  lemma FirstNamed(root: Node, path: Bytes, h: Handlers)
    requires IsEmpty(root) && Colons(path) == 0
    ensures AddRoute(root, path, h).Ok? && Named(AddRoute(root, path, h).n, [])
  {
    EmptyPrefix(path);
  }
}
