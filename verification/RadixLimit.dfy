/** What becomes of a route with more wildcards than a byte can count. */
module RadixLimit {
  import opened Prelude
  import opened RadixTree
  import opened RadixShape
  import opened RadixOrder

  const SEGMENT: Bytes := [SLASH, COLON, 0x61]

  /** `k` segments with a wildcard, and a tail. */
  function Long(k: nat, tail: Bytes): Bytes {
    if k == 0 then tail else SEGMENT + Long(k - 1, tail)
  }

  lemma {:induction false} LongColons(k: nat, tail: Bytes)
    ensures Colons(Long(k, tail)) == k + Colons(tail)
  {
    if k > 0 {
      LongColons(k - 1, tail);
      ColonsConcat(SEGMENT, Long(k - 1, tail));
      assert Colons(SEGMENT) == 1 by {
        assert SEGMENT[1..] == [COLON, 0x61] && [COLON, 0x61][1..] == [0x61];
        assert Colons([0x61]) == 0;
      }
    }
  }

  /** A slash and a wildcard `k` times, then a slash with the only handlers. */
  ghost predicate Chain(n: Node, k: nat)
    decreases k, 1
  {
    && n.path == [SLASH] && !n.nType.ParamNode? && n.priority >= 1
    && if k == 0 then !n.wildChild && |n.children| == 0 && |n.indices| == 0 && n.handlers.Some?
       else n.wildChild && n.handlers == None && |n.children| == 1 && Link(n.children[0], k)
  }

  ghost predicate Link(m: Node, k: nat)
    requires k > 0
    decreases k, 0
  {
    && m.path == SEGMENT[1..] && m.nType.ParamNode? && !m.wildChild && m.handlers == None
    && |m.children| == 1 && Chain(m.children[0], k - 1)
  }

  lemma LongText(k: nat, tail: Bytes)
    requires k > 0 && |tail| > 0 && tail[0] == SLASH
    ensures var t := Long(k, tail);
      && |t| > 3 && FindWild(t) == 1 && t[1] == COLON && t[..1] == [SLASH]
      && SegEnd(t[1..]) == 2 && t[1..][..2] == SEGMENT[1..] && t[1..][2..] == Long(k - 1, tail)
      && NoWild(t[1..], 1, 2) && |t[1..]| > 2
  {
    var t := Long(k, tail);
    assert |Long(k - 1, tail)| > 0 && Long(k - 1, tail)[0] == SLASH;
    assert t[0] == SLASH && t[1] == COLON && t[2] == 0x61 && t[3] == SLASH;
    assert t[1..][1..][0] == 0x61 && t[1..][1..][1..][0] == SLASH;
    assert SegEnd(t[1..][1..][1..]) == 0;
    assert SegEnd(t[1..][1..]) == 1;
    assert FindWild(t[1..]) == 0;
  }

  lemma {:induction false} ChainBuilt(n: Node, k: nat, full: Bytes, h: Handlers)
    requires n == EmptyNode.(maxParams := n.maxParams, priority := n.priority, fullPath := n.fullPath) && n.priority >= 1
    ensures var r := InsertChild(n, k, Long(k, [SLASH]), full, h);
      r.Ok? && Chain(r.n, k)
    decreases k
  {
    if k > 0 {
      LongText(k, [SLASH]);
      ChainBuilt(EmptyNode.(maxParams := k - 1, priority := 1, fullPath := full), k - 1, full, h);
      var w := WildNode(k, Long(k, [SLASH])[1..], full, h);
      assert w.Ok? && Link(w.n, k);
    }
  }

  /** The only handlers in the chain are the new ones afterwards. */
  ghost predicate Overwritten(n: Node) {
    Count(n) == 1 && !Ranked(n)
  }

  lemma OnlyChild(n: Node, c: Node)
    requires n.children == [c] && n.handlers == None && Overwritten(c)
    ensures Overwritten(n)
  {
    assert n.children[0] == c;
    assert CountAll([c][1..]) == 0;
  }

  lemma PrefixOf(t: Bytes, w: Bytes)
    requires w <= t
    ensures CommonPrefix(t, w) == |w|
    decreases |w|
  {
    if |w| > 0 {
      assert t[1..][..|w| - 1] == t[1..|w|];
      PrefixOf(t[1..], w[1..]);
    }
  }

  /** Down the chain with one wildcard more than it has. */
  lemma {:induction false} DownChain(n: Node, k: nat, full: Bytes, done: nat, h: Handlers)
    requires Chain(n, k) && n.priority >= 2
    ensures var r := Walk(n, k, Long(k, SEGMENT), full, done, h);
      r.Ok? && Overwritten(r.n)
    decreases k, 1
  {
    var t := Long(k, SEGMENT);
    if k == 0 {
      PrefixOf(t, n.path);
      var n1 := Arrive(n, k, 1, full, done);
      assert t[1..][0] == COLON;
      assert Below(n1, 0, t[1..], full, done + 1, h) == InsertChild(n1, 0, t[1..], full, h);
    } else {
      LongText(k, SEGMENT);
      PrefixOf(t, n.path);
      var n1 := Arrive(n, k, 1, full, done);
      var m := n.children[0];
      var m1 := m.(priority := m.priority + 1, maxParams := Max(m.maxParams, k));
      DownLink(m1, k, full, done + 1, h);
      var r := Below(n1, k, t[1..], full, done + 1, h);
      assert SameWildcard(m.path, t[1..]) by {
        assert m.path == t[1..][..2];
      }
      assert r == BelowWild(n1, k, t[1..], full, done + 1, h);
      assert r == WithChild(n1, 0, Walk(m1, k - 1, t[1..], full, done + 1, h));
      OnlyChild(r.n, r.n.children[0]);
    }
  }

  lemma {:induction false} DownLink(m: Node, k: nat, full: Bytes, done: nat, h: Handlers)
    requires k > 0 && Link(m, k)
    ensures var r := Walk(m, k - 1, Long(k, SEGMENT)[1..], full, done, h);
      r.Ok? && Overwritten(r.n)
    decreases k, 0
  {
    var t := Long(k, SEGMENT)[1..];
    LongText(k, SEGMENT);
    PrefixOf(t, m.path);
    var m1 := Arrive(m, k - 1, 2, full, done);
    var c := m.children[0];
    DownChain(c.(priority := c.priority + 1), k - 1, full, done + 2, h);
    var r := Below(m1, k - 1, t[2..], full, done + 2, h);
    assert r == BelowSlash(m1, k - 1, t[2..], full, done + 2, h);
    OnlyChild(r.n, r.n.children[0]);
  }

  /** Two routes, of 255 and 256 wildcards: both are accepted, and only one is held. */
  lemma RouteLost(h1: Handlers, h2: Handlers)
    ensures var p1, p2 := Long(255, [SLASH]), Long(255, SEGMENT);
      && Colons(p1) == 255 && Colons(p2) == 256 && |p1| > 0 && |p2| > 0
      && AddRoute(EmptyNode, p1, h1).Ok? && AddRoute(AddRoute(EmptyNode, p1, h1).n, p2, h2).Ok?
      && Overwritten(AddRoute(AddRoute(EmptyNode, p1, h1).n, p2, h2).n)
  {
    FirstRoute(255, h1);
    var p1 := Long(255, [SLASH]);
    SecondRoute(AddRoute(EmptyNode, p1, h1).n, h2);
  }

  lemma FirstText(k: nat)
    ensures |Long(k, [SLASH])| > 0 && Colons(Long(k, [SLASH])) == k
  {
    LongColons(k, [SLASH]);
    assert Colons([SLASH]) == 0;
  }

  lemma Retyped(n: Node, k: nat)
    requires Chain(n, k)
    ensures Chain(n.(nType := Root), k)
  {
  }

  lemma FirstRoute(k: nat, h: Handlers)
    requires k <= 255
    ensures var p := Long(k, [SLASH]);
      && |p| > 0 && Colons(p) == k
      && AddRoute(EmptyNode, p, h).Ok? && Chain(AddRoute(EmptyNode, p, h).n, k)
  {
    FirstText(k);
    var n, p := EmptyNode.(priority := 1), Long(k, [SLASH]);
    ChainBuilt(n, k, p, h);
    Retyped(InsertChild(n, k, p, p, h).n, k);
    assert CountParams(p) == k;
  }

  lemma SecondRoute(n: Node, h: Handlers)
    requires Chain(n, 255)
    ensures var p := Long(255, SEGMENT);
      && |p| > 0 && Colons(p) == 256
      && AddRoute(n, p, h).Ok? && Overwritten(AddRoute(n, p, h).n)
  {
    LongColons(255, SEGMENT);
    LongColons(1, []);
    assert SEGMENT + [] == SEGMENT;
    DownChain(n.(priority := n.priority + 1), 255, Long(255, SEGMENT), 0, h);
  }

  // ----- Behind a catch-all -----

  /** A catch-all as a route of its own. */
  predicate IsCatchRoute(w: Bytes) {
    |w| >= 3 && StarHere(w) && NoWild(w, 2, |w|) && forall k | 2 <= k < |w| :: w[k] != SLASH
  }

  /** The node that holds the catch-all of a tree that has nothing else. */
  function CatchVarOf(root: Node): Node
    requires IsCatchTop(root)
  {
    root.children[0].children[0]
  }

  lemma CatchCounts(w: Bytes, rest: Bytes)
    requires IsCatchRoute(w) && Plain(rest)
    ensures Colons(w + rest) == 1 && FindWild(w) == 1 && SegEnd(w[1..]) == |w| - 1
  {
    OneColon(w, 1);
    PlainColons(rest);
    ColonsConcat(w, rest);
    NameIsWord(w[1..]);
  }

  lemma {:induction false} NameIsWord(p: Bytes)
    requires forall k | 0 <= k < |p| :: p[k] != SLASH
    ensures SegEnd(p) == |p|
    decreases |p|
  {
    if |p| > 0 {
      NameIsWord(p[1..]);
    }
  }

  lemma CatchAdded(w: Bytes, h: Handlers)
    requires IsCatchRoute(w)
    ensures AddRoute(EmptyNode, w, h).Ok?
    ensures var root := AddRoute(EmptyNode, w, h).n;
      IsCatchTop(root) && CatchVarOf(root).path == w && CatchVarOf(root).handlers == Some(h)
  {
    CatchCounts(w, []);
    assert w + [] == w && w[0..] == w && w[..0] == [];
    assert CatchAllFits(EmptyNode.(priority := 1), 1, w, 1);
  }

  /** What a lookup sees of a catch-all. */
  predicate SameCatch(m: Node, m': Node) {
    m'.nType == m.nType && m'.path == m.path && m'.handlers == m.handlers
  }

  lemma VarTakes(m: Node, rest: Bytes, full: Bytes, done: nat, h: Handlers) returns (m': Node)
    requires IsCatchVar(m) && |rest| > 0 && rest[0] == SLASH
    ensures Walk(m, 0, m.path + rest, full, done, h) == Ok(m') && SameCatch(m, m')
  {
    var path := m.path + rest;
    PrefixCommon(path, m.path);
    assert path[|m.path|..] == rest;
    var n1 := Arrive(m, 0, |m.path|, full, done);
    assert Walk(m, 0, path, full, done, h) == Below(n1, 0, rest, full, done + |m.path|, h) == BelowNew(n1, 0, rest, full, h);
    m' := BelowNew(n1, 0, rest, full, h).n;
  }

  lemma AboveTakes(n: Node, rest: Bytes, full: Bytes, done: nat, h: Handlers) returns (m': Node)
    requires IsAbove(n) && |rest| > 0 && rest[0] == SLASH
    ensures var r := Walk(n, 1, n.children[0].path + rest, full, done, h);
      r == Ok(n.(maxParams := Max(n.maxParams, 1), children := [m'])) && SameCatch(n.children[0], m')
  {
    var m, n1 := n.children[0], n.(maxParams := Max(n.maxParams, 1));
    var path := m.path + rest;
    var m1 := m.(priority := m.priority + 1, maxParams := Max(m.maxParams, 1));
    m' := VarTakes(m1, rest, full, done, h);
    assert path[0..] == path && path[|m.path|] == SLASH && SameWildcard(m.path, path);
    assert Walk(n, 1, path, full, done, h) == Below(n1, 1, path, full, done, h) == BelowWild(n1, 1, path, full, done, h);
    assert n1.children[0 := m'] == [m'];
  }

  lemma TopTakes(n: Node, rest: Bytes, full: Bytes, done: nat, h: Handlers) returns (a': Node)
    requires IsCatchTop(n) && |rest| > 0 && rest[0] == SLASH
    ensures var r := Walk(n, 1, CatchVarOf(n).path + rest, full, done, h);
      r == Ok(n.(maxParams := Max(n.maxParams, 1), children := [a']))
    ensures a'.nType.CatchAll? && a'.wildChild && |a'.path| == 0 && a'.handlers == None
    ensures |a'.children| == 1 && SameCatch(CatchVarOf(n), a'.children[0])
  {
    var a, n1 := n.children[0], n.(maxParams := Max(n.maxParams, 1));
    var a1 := a.(priority := a.priority + 1);
    var path := CatchVarOf(n).path + rest;
    var m' := AboveTakes(a1, rest, full, done, h);
    a' := Walk(a1, 1, path, full, done, h).n;
    assert path[0..] == path && path[0] == SLASH;
    assert Walk(n, 1, path, full, done, h) == Below(n1, 1, path, full, done, h) == BelowChild(n1, 0, 1, path, full, done, h);
    ChildPlaced(n1, 0, 0, a1, a');
    assert Reordered(n1.(children := n1.children[0 := a']), 0, 0) == n1.(children := [a']);
  }

  lemma SameFinds(n: Node, n': Node, p: Bytes)
    requires IsCatchTop(n) && n' == n.(priority := n'.priority, maxParams := n'.maxParams, children := n'.children) && |n'.children| == 1
    requires var a' := n'.children[0];
      && a'.nType.CatchAll? && a'.wildChild && |a'.path| == 0 && a'.handlers == None
      && |a'.children| == 1 && SameCatch(CatchVarOf(n), a'.children[0])
    ensures Get(n', p) == Get(n, p)
  {
    if |p| > 0 && p[0] == SLASH {
      assert p[0..] == p;
      assert Get(n, p) == Get(n.children[0], p) == GetCatchAll(CatchVarOf(n), p);
      assert Get(n', p) == Get(n'.children[0], p) == GetCatchAll(n'.children[0].children[0], p);
    } else if |p| > 0 {
      assert p[0..] == p && Find([SLASH][1..], p[0]) == 0;
    }
  }

  /** A route that goes on behind the name of a registered catch-all is accepted, but no path ever finds it. */
  lemma NeverFound(w: Bytes, rest: Bytes, h: Handlers, h': Handlers, p: Bytes)
    requires IsCatchRoute(w) && Plain(rest) && |rest| > 0 && rest[0] == SLASH
    ensures AddRoute(EmptyNode, w, h).Ok? && AddRoute(AddRoute(EmptyNode, w, h).n, w + rest, h').Ok?
    ensures Get(AddRoute(AddRoute(EmptyNode, w, h).n, w + rest, h').n, p) == Get(AddRoute(EmptyNode, w, h).n, p)
  {
    CatchAdded(w, h);
    CatchCounts(w, rest);
    var root := AddRoute(EmptyNode, w, h).n;
    var n := root.(priority := root.priority + 1);
    var a' := TopTakes(n, rest, w + rest, 0, h');
    SameFinds(root, AddRoute(root, w + rest, h').n, p);
  }
}
