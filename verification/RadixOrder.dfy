/** Priorities in the radix tree: how many routes lie below a node, the most used child first. */
module RadixOrder {
  import opened Prelude
  import opened RadixTree
  import opened RadixShape

  /** The routes at and below a node. */
  function Count(n: Node): nat
    decreases n
  {
    (if n.handlers.Some? then 1 else 0) + CountAll(n.children)
  }

  function CountAll(ns: seq<Node>): nat
    decreases ns
  {
    if |ns| == 0 then 0 else Count(ns[0]) + CountAll(ns[1..])
  }

  ghost predicate Sorted(ns: seq<Node>) {
    forall i, j | 0 <= i < j < |ns| :: ns[i].priority >= ns[j].priority
  }

  ghost predicate Ranked(n: Node)
    decreases n
  {
    && n.priority == Count(n) && Sorted(n.children)
    && forall i | 0 <= i < |n.children| :: Ranked(n.children[i])
  }

  ghost predicate AllRanked(ns: seq<Node>) {
    forall i | 0 <= i < |ns| :: Ranked(ns[i])
  }

  ghost predicate KidsRanked(n: Node) {
    Sorted(n.children) && AllRanked(n.children)
  }

  /** A node whose priority already counts one route to come. */
  ghost predicate Expecting(n: Node) {
    forall u | u == n :: Expects(u)
  }

  ghost predicate Expects(n: Node) {
    KidsRanked(n) && n.priority == Count(n) + 1
  }

  /** The node with the route. */
  ghost predicate Gained(n: Node, n': Node) {
    forall u | u == n' :: Gains(n, u)
  }

  ghost predicate Gains(n: Node, n': Node) {
    KidsRanked(n') && n'.priority == n.priority && Count(n') == Count(n) + 1
  }

  /** A node that expected one route and got it. */
  lemma ExpectedGained(n: Node, n': Node)
    requires Expecting(n) && Gained(n, n')
    ensures Ranked(n') && Count(n') == Count(n) + 1 && n'.priority == n.priority
  {
    assert Expects(n) && Gains(n, n');
  }

  lemma MakeLeafRanked(n: Node, h: Handlers)
    requires Expecting(n) && n.handlers == None
    ensures Gained(n, n.(handlers := Some(h)))
  {
    assert Expects(n);
    assert Gains(n, n.(handlers := Some(h)));
  }

  lemma {:induction false} CountUpdate(ns: seq<Node>, k: nat, c: Node)
    requires k < |ns|
    ensures CountAll(ns[k := c]) == CountAll(ns) - Count(ns[k]) + Count(c)
    decreases |ns|
  {
    if k == 0 {
      assert ns[k := c][1..] == ns[1..];
    } else {
      assert ns[k := c][1..] == ns[1..][k - 1 := c];
      CountUpdate(ns[1..], k - 1, c);
    }
  }

  lemma {:induction false} CountConcat(a: seq<Node>, b: seq<Node>)
    ensures CountAll(a + b) == CountAll(a) + CountAll(b)
    decreases |a|
  {
    if |a| == 0 {
      assert a + b == b;
    } else {
      assert (a + b)[0] == a[0] && (a + b)[1..] == a[1..] + b;
      CountConcat(a[1..], b);
    }
  }

  lemma CountOne(c: Node)
    ensures CountAll([c]) == Count(c)
  {
    assert [c][1..] == [];
  }

  lemma CountFour(a: seq<Node>, b: seq<Node>, c: seq<Node>, d: seq<Node>)
    ensures CountAll(a + b + c + d) == CountAll(a) + CountAll(b) + CountAll(c) + CountAll(d)
  {
    CountConcat(a + b + c, d);
    CountConcat(a + b, c);
    CountConcat(a, b);
  }

  lemma CountMoved(ns: seq<Node>, pos: nat, q: nat)
    requires q <= pos < |ns|
    ensures CountAll(Moved(ns, pos, q)) == CountAll(ns)
  {
    Unmoved(ns, pos, q);
    CountFour(ns[..q], [ns[pos]], ns[q..pos], ns[pos + 1..]);
    CountFour(ns[..q], ns[q..pos], [ns[pos]], ns[pos + 1..]);
  }

  lemma MovedOrder(ns: seq<Node>, pos: nat, c: Node, q: nat, i: nat, j: nat)
    requires pos < |ns| && Sorted(ns) && c.priority == ns[pos].priority + 1 && q == NewPos(ns, pos, c.priority)
    requires i < j < |ns|
    ensures Source(pos, q, i) < |ns| && Source(pos, q, j) < |ns|
    ensures ns[pos := c][Source(pos, q, i)].priority >= ns[pos := c][Source(pos, q, j)].priority
  {
    if i == q {
      assert Source(pos, q, j) < pos ==> ns[Source(pos, q, j)].priority < c.priority;
    } else if j == q {
      assert ns[i].priority >= ns[q - 1].priority >= c.priority;
    }
  }

  /** Moving a child that gained one to its new position keeps the order. */
  lemma SortedMoved(ns: seq<Node>, pos: nat, c: Node, q: nat)
    requires pos < |ns| && Sorted(ns) && c.priority == ns[pos].priority + 1 && q == NewPos(ns, pos, c.priority)
    ensures Sorted(Moved(ns[pos := c], pos, q))
  {
    var s := ns[pos := c];
    var r := Moved(s, pos, q);
    forall i, j | 0 <= i < j < |r|
      ensures r[i].priority >= r[j].priority
    {
      MovedAt(s, pos, q, i);
      MovedAt(s, pos, q, j);
      MovedOrder(ns, pos, c, q, i, j);
    }
  }

  // ----- Adding a route -----

  lemma OneChild(n: Node, c: Node)
    requires n.children == [c] && Ranked(c)
    ensures KidsRanked(n) && Count(n) == (if n.handlers.Some? then 1 else 0) + Count(c)
  {
    CountOne(c);
  }

  lemma {:induction false} InsertRanked(n: Node, np: nat, path: Bytes, full: Bytes, h: Handlers) returns (r: Node)
    requires InsertChild(n, np, path, full, h).Ok? && (np == 0 ==> |n.children| == 0 && n.handlers == None)
    ensures r == InsertChild(n, np, path, full, h).n && Gained(n, r)
    decreases |path|, 1
  {
    r := InsertChild(n, np, path, full, h).n;
    if np > 0 {
      var i := FindWild(path);
      if path[i] == STAR {
        CatchAllRanked(path[i - 1..], full, h);
        OneChild(r, AboveCatchAll(CatchAllNode(path[i - 1..], full, h), full));
        assert Gains(n, r);
      } else {
        var m := WildRanked(np, path[i..], full, h);
        OneChild(r, m);
        assert Gains(n, r);
      }
    } else {
      assert Gains(n, r);
    }
  }

  lemma CatchAllRanked(path: Bytes, full: Bytes, h: Handlers)
    ensures Ranked(AboveCatchAll(CatchAllNode(path, full, h), full))
    ensures Count(AboveCatchAll(CatchAllNode(path, full, h), full)) == 1
  {
    var all := CatchAllNode(path, full, h);
    assert Ranked(all) && Count(all) == 1;
    OneChild(AboveCatchAll(all, full), all);
  }

  lemma {:induction false} WildRanked(np: nat, path: Bytes, full: Bytes, h: Handlers) returns (m: Node)
    requires |path| > 0 && np > 0 && WildNode(np, path, full, h).Ok?
    ensures m == WildNode(np, path, full, h).n && Ranked(m) && Count(m) == 1
    decreases |path|, 0
  {
    m := WildNode(np, path, full, h).n;
    var e := SegEnd(path);
    if e < |path| {
      var c0 := EmptyNode.(maxParams := np - 1, priority := 1, fullPath := full);
      NothingRanked(c0);
      var c := InsertRanked(c0, np - 1, path[e..], full, h);
      assert Gains(c0, c);
      OneChild(m, c);
    }
  }

  lemma SplitExpecting(n: Node, np: nat, i: nat, full: Bytes, done: nat)
    requires Expecting(n) && i <= |n.path|
    ensures Expecting(Arrive(n, np, i, full, done)) && Count(Arrive(n, np, i, full, done)) == Count(n)
    ensures Arrive(n, np, i, full, done).priority == n.priority
  {
    var r := Arrive(n, np, i, full, done);
    assert Expects(n);
    if i < |n.path| {
      var child := r.children[0];
      assert Count(child) == Count(n) && Ranked(child);
      OneChild(r, child);
    }
    assert Expects(r);
  }

  lemma ExpectChild(c: Node, c1: Node)
    requires Ranked(c) && c1.priority == c.priority + 1 && c1.children == c.children && c1.handlers == c.handlers
    ensures Expecting(c1) && Count(c1) == Count(c)
  {
    assert Expects(c1);
  }

  lemma FirstRanked(n: Node, c: Node)
    requires Expecting(n) && |n.children| > 0 && Ranked(c) && c.priority == n.children[0].priority + 1
    ensures Gained(n, n.(children := n.children[0 := c]))
  {
    assert Expects(n);
    CountUpdate(n.children, 0, c);
    assert Gains(n, n.(children := n.children[0 := c]));
  }

  lemma MovedAll(ns: seq<Node>, k: nat, c: Node, q: nat, r: seq<Node>)
    requires AllRanked(ns) && q <= k < |ns| && Ranked(c) && r == Moved(ns[k := c], k, q)
    ensures AllRanked(r)
  {
    var s := ns[k := c];
    assert forall i | 0 <= i < |s| :: s[i] == c || s[i] == ns[i];
    forall i | 0 <= i < |r|
      ensures Ranked(r[i])
    {
      MovedAt(s, k, q, i);
    }
  }

  lemma RankedCount(n: Node)
    requires Ranked(n)
    ensures Count(n) == n.priority
  {
  }

  lemma MovedRanked(ns: seq<Node>, k: nat, c: Node, q: nat, r: seq<Node>)
    requires Sorted(ns) && AllRanked(ns) && k < |ns| && Ranked(c) && c.priority == ns[k].priority + 1
    requires q == NewPos(ns, k, c.priority) && r == Moved(ns[k := c], k, q)
    ensures Sorted(r) && AllRanked(r) && CountAll(r) == CountAll(ns) + 1
  {
    SortedMoved(ns, k, c, q);
    CountMoved(ns[k := c], k, q);
    CountUpdate(ns, k, c);
    RankedCount(c);
    RankedCount(ns[k]);
    MovedAll(ns, k, c, q, r);
  }

  lemma NothingRanked(n: Node)
    requires |n.children| == 0 && n.handlers == None
    ensures KidsRanked(n) && Count(n) == 0
  {
  }

  /** The count lasts for the wildcard bytes to come. */
  predicate Lasts(n: Node, np: nat, path: Bytes) {
    Colons(path) <= np + if IsVar(n) then 1 else 0
  }

  lemma LastsBelow(n: Node, np: nat, path: Bytes, i: nat)
    requires Safe(n) && Fits(n, path) && Lasts(n, np, path) && i == CommonPrefix(path, n.path)
    ensures Colons(path[i..]) <= np
  {
    ColonsCut(path, i);
    if IsVar(n) {
      assert Sane(n);
      VarArrives(n, path, i);
      VarUses(n, path);
    }
  }

  lemma {:induction false} WalkRanked(n: Node, np: nat, path: Bytes, full: Bytes, done: nat, h: Handlers, n': Node)
    requires Expecting(n) && Safe(n) && Fits(n, path) && Lasts(n, np, path) && Walks(n, np, path, full, done, h, n')
    ensures Gained(n, n') && Ranked(n')
    decreases |path|, Height(n), 4
  {
    var i, n1 := WalksTurns(n, np, path, full, done, h, n');
    TurnRanked(n, i, n1, np, path, full, done, h, n');
  }

  lemma {:induction false} TurnRanked(n: Node, i: nat, n1: Node, np: nat, path: Bytes, full: Bytes, done: nat, h: Handlers, n': Node)
    requires Expecting(n) && Safe(n) && Fits(n, path) && Lasts(n, np, path) && Turns(n, i, n1, np, path, full, done, h, Ok(n'))
    requires i == 0 && |n.path| == 0 ==> Height(n1) == Height(n)
    ensures Gained(n, n') && Ranked(n')
    decreases |path|, Height(n), 3
  {
    SplitExpecting(n, np, i, full, done);
    ArriveSane(n, np, path, i, full, done, n1);
    LastsBelow(n, np, path, i);
    if i == |path| {
      MakeLeafRanked(n1, h);
    } else if i == 0 && |n.path| > 0 {
      assert path[0..] == path;
      ApartRanked(n1, np, path, full, h, n');
    } else {
      BelowRanked(n1, np, path[i..], full, done + i, h, n');
    }
    ArrivedGained(n, n1, n');
  }

  lemma ArrivedGained(n: Node, n1: Node, n': Node)
    requires Expecting(n) && Gained(n1, n') && Count(n1) == Count(n) && n1.priority == n.priority
    ensures Gained(n, n') && Ranked(n')
  {
    assert Gains(n1, n');
    assert Gains(n, n');
    ExpectedGained(n, n');
  }

  lemma ApartRanked(n: Node, np: nat, t: Bytes, full: Bytes, h: Handlers, n': Node)
    requires Expecting(n) && Safe(n) && FitsBelow(n, t) && !n.wildChild && Colons(t) <= np
    requires (n.nType.ParamNode? ==> |n.children| == 0) && Apart(n, np, t, full, h) == Ok(n')
    ensures Gained(n, n')
  {
    ShapeOf(n);
    if !IsWildByte(t[0]) {
      BelowNewRanked(n, np, t, full, h, n');
    } else {
      var _ := InsertRanked(n, np, t, full, h);
    }
  }

  lemma {:induction false} BelowRanked(n: Node, np: nat, t: Bytes, full: Bytes, done: nat, h: Handlers, n': Node)
    requires Expecting(n) && Safe(n) && FitsBelow(n, t) && Colons(t) <= np && Below(n, np, t, full, done, h) == Ok(n')
    ensures Gained(n, n')
    decreases |t|, Height(n), 2
  {
    ShapeOf(n);
    if n.wildChild {
      var m1, m' := WildWalks(n, np, t, full, done, h, n');
      BelowWildRanked(n, np, t, full, done, h, m1, m');
    } else if n.nType.ParamNode? && |n.children| == 1 {
      var c1, c' := SlashWalks(n, np, t, full, done, h, n');
      ChildRanked(n, 0, np, t, full, done, h, c1, c');
      FirstRanked(n, c');
    } else if Find(n.indices, t[0]) < |n.indices| {
      var k := Find(n.indices, t[0]);
      var c1, c', q := ChildWalks(n, k, np, t, full, done, h, n');
      ChildRanked(n, k, np, t, full, done, h, c1, c');
      PlacedRanked(n, k, c', q, n');
    } else {
      ApartRanked(n, np, t, full, h, n');
    }
  }

  lemma PlacedRanked(n: Node, k: nat, c': Node, q: nat, n': Node)
    requires Expecting(n) && k < |n.children| == |n.indices| && Ranked(c') && c'.priority == n.children[k].priority + 1
    requires q == NewPos(n.children, k, c'.priority) && n' == Reordered(n.(children := n.children[k := c']), k, q)
    ensures Gained(n, n')
  {
    assert Expects(n);
    MovedRanked(n.children, k, c', q, n'.children);
    assert Gains(n, n');
  }

  lemma KidRanked(n: Node, k: nat)
    requires Expecting(n) && k < |n.children|
    ensures Ranked(n.children[k])
  {
    assert Expects(n);
  }

  /** An ordinary child, which gained one. */
  lemma {:induction false} ChildRanked(n: Node, k: nat, np: nat, t: Bytes, full: Bytes, done: nat, h: Handlers, c1: Node, c': Node)
    requires Expecting(n) && Safe(n) && !n.wildChild && k < |n.children| && |t| > 0 && Colons(t) <= np
    requires c1 == n.children[k].(priority := n.children[k].priority + 1) && Walks(c1, np, t, full, done, h, c')
    ensures Ranked(c') && c'.priority == c1.priority
    decreases |t|, Height(n), 1
  {
    HeightBelow(n.children, k);
    ChildSafe(n, k);
    KidRanked(n, k);
    ExpectChild(n.children[k], c1);
    Recounted(n.children[k], c1.priority, c1.maxParams);
    WalkRanked(c1, np, t, full, done, h, c');
    ExpectedGained(c1, c');
  }

  lemma {:induction false} BelowWildRanked(n: Node, np: nat, t: Bytes, full: Bytes, done: nat, h: Handlers, m1: Node, m': Node)
    requires Expecting(n) && Safe(n) && n.wildChild && |n.children| > 0 && |t| > 0 && Colons(t) <= np
    requires m1 == n.children[0].(priority := n.children[0].priority + 1, maxParams := m1.maxParams)
    requires SameWildcard(n.children[0].path, t) && Walks(m1, Less(np), t, full, done, h, m')
    ensures Gained(n, n.(children := n.children[0 := m']))
    decreases |t|, Height(n), 1
  {
    HeightBelow(n.children, 0);
    ChildSafe(n, 0);
    KidRanked(n, 0);
    ExpectChild(n.children[0], m1);
    Recounted(n.children[0], m1.priority, m1.maxParams);
    VarUses(n.children[0], t);
    assert Less(np) == np - 1;
    WalkRanked(m1, np - 1, t, full, done, h, m');
    ExpectedGained(m1, m');
    FirstRanked(n, m');
  }

  lemma BelowNewRanked(n: Node, np: nat, t: Bytes, full: Bytes, h: Handlers, n': Node)
    requires Expecting(n) && |n.children| == |n.indices| && |t| > 0
    requires BelowNew(n, np, t, full, h) == Ok(n')
    ensures Gained(n, n')
  {
    var c, q := NewShape(n, np, t, full, h);
    var c1 := NewChild(np, full).(priority := 1);
    NothingRanked(c1);
    var _ := InsertRanked(c1, np, t, full, h);
    NewRanked(c1, c);
    assert Expects(n);
    AppendRanked(n.children, NewChild(np, full));
    PlacedLast(n.children, NewChild(np, full), c, q, n'.children);
    assert Gains(n, n');
  }

  lemma PlacedLast(ns: seq<Node>, c0: Node, c: Node, q: nat, r: seq<Node>)
    requires Sorted(ns + [c0]) && AllRanked(ns + [c0]) && CountAll(ns + [c0]) == CountAll(ns)
    requires Ranked(c) && c.priority == 1 && c0.priority == 0
    requires q == NewPos(ns + [c0], |ns|, 1) && r == Moved(ns + [c], |ns|, q)
    ensures Sorted(r) && AllRanked(r) && CountAll(r) == CountAll(ns) + 1
  {
    assert (ns + [c0])[|ns| := c] == ns + [c];
    MovedRanked(ns + [c0], |ns|, c, q, r);
  }

  lemma NewRanked(c1: Node, c': Node)
    requires Gained(c1, c') && Count(c1) == 0 && c1.priority == 1
    ensures Ranked(c') && c'.priority == 1
  {
    assert Gains(c1, c');
  }

  lemma AppendRanked(ns: seq<Node>, c: Node)
    requires Sorted(ns) && AllRanked(ns) && |c.children| == 0 && c.handlers == None && c.priority == 0
    ensures Sorted(ns + [c]) && AllRanked(ns + [c]) && CountAll(ns + [c]) == CountAll(ns)
  {
    CountConcat(ns, [c]);
    CountOne(c);
    NothingRanked(c);
  }

  /** A tree in which every priority is the number of routes, children with more routes first. */
  lemma AddRouteRanked(root: Node, path: Bytes, h: Handlers)
    requires IsShaped(root) && |path| > 0 && Colons(path) <= 255 && AddRoute(root, path, h).Ok? && Ranked(root)
    ensures Ranked(AddRoute(root, path, h).n) && Count(AddRoute(root, path, h).n) == Count(root) + 1
  {
    var n := root.(priority := root.priority + 1);
    ExpectChild(root, n);
    Recounted(root, n.priority, n.maxParams);
    if |n.path| > 0 || |n.children| > 0 {
      var r := AddRoute(root, path, h).n;
      WalkRanked(n, Colons(path), path, path, 0, h, r);
      ExpectedGained(n, r);
    } else {
      var r := FirstInserted(n, path, h);
      ExpectedGained(n, r);
      assert Count(r.(nType := Root)) == Count(r);
    }
  }

  /** An empty tree has no handlers: there is no route to an empty path. */
  lemma FirstInserted(n: Node, path: Bytes, h: Handlers) returns (r: Node)
    requires |n.path| == 0 && |n.children| == 0 && Expecting(n) && n.handlers == None && InsertChild(n, Colons(path), path, path, h).Ok?
    ensures r == InsertChild(n, Colons(path), path, path, h).n && Gained(n, r) && Ranked(r)
  {
    r := InsertRanked(n, Colons(path), path, path, h);
    ExpectedGained(n, r);
  }
}
