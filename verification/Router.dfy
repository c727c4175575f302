/** The router at work: one tree, routes added to it and paths looked up in it. */
module Router {
  import opened Prelude
  import opened RadixTree
  import opened RadixRoutes
  import opened RadixShape
  import RadixOrder
  import RadixLimit
  import RadixParams
  import RadixNames
  import RadixClash
  import CleanPath

  // ----- Looking up -----

  function SaveAll(ps: seq<Param>, f: Found): Found {
    if f.Found? then f.(params := ps + f.params) else f
  }

  lemma SaveOne(ps: seq<Param>, p: Param, f: Found)
    ensures SaveAll(ps, Save(p, f)) == SaveAll(ps + [p], f)
  {
    if f.Found? {
      assert ps + ([p] + f.params) == ps + [p] + f.params;
    }
  }

  /** The search through the index bytes. */
  method IndexOf(s: Bytes, c: byte) returns (i: nat)
    ensures i == Find(s, c)
  {
    i := 0;
    assert s[0..] == s;
    while i < |s| && s[i] != c
      invariant i <= |s| && Find(s, c) == i + Find(s[i..], c)
    {
      assert s[i..][1..] == s[i + 1..];
      i := i + 1;
    }
  }

  /** The end of the segment a wildcard takes. */
  method SegmentEnd(p: Bytes) returns (end: nat)
    ensures end == SegEnd(p)
  {
    end := 0;
    assert p[0..] == p;
    while end < |p| && p[end] != SLASH
      invariant end <= |p| && SegEnd(p) == end + SegEnd(p[end..])
    {
      assert p[end..][1..] == p[end + 1..];
      end := end + 1;
    }
  }

  /** What a wildcard node finds after its own segment. */
  function AfterSegment(m: Node, p: Bytes, end: nat): Found
    requires end <= |p|
  {
    if end == |p| then Hit(m.handlers) else if |m.children| > 0 then Get(m.children[0], p[end..]) else NotFound
  }

  /** A node the lookup may stand at: no wildcard itself, and with room for the parameters below it. */
  ghost predicate Stands(n: Node, saved: nat, cap: nat) {
    !IsVar(n) && Safe(n) && RadixParams.Deep(n) && (saved == 0 || saved + Depth(n) <= cap)
  }

  lemma {:induction false} DepthAtMost(ns: seq<Node>, k: nat)
    requires k < |ns|
    ensures Depth(ns[k]) <= DepthAll(ns)
    decreases |ns|
  {
    if k > 0 {
      DepthAtMost(ns[1..], k - 1);
    }
  }

  lemma StepStatic(n: Node, i: nat, saved: nat, cap: nat)
    requires Stands(n, saved, cap) && !n.wildChild && i < |n.indices|
    ensures i < |n.children| && Stands(n.children[i], saved, cap)
  {
    assert Sane(n);
    ChildSafe(n, i);
    DepthAtMost(n.children, i);
  }

  /** At a wildcard: its `maxParams` is what the rest of the lookup can still save. */
  lemma StepWild(n: Node, saved: nat, cap: nat)
    requires Stands(n, saved, cap) && n.wildChild
    ensures |n.children| > 0 && IsVar(n.children[0]) && |n.children[0].path| >= 2 && n.children[0].maxParams >= 1
    ensures saved == 0 || saved + n.children[0].maxParams <= cap
    ensures |n.children[0].children| > 0 && n.children[0].nType.ParamNode? ==>
      && Stands(n.children[0].children[0], 0, cap)
      && Depth(n.children[0].children[0]) < n.children[0].maxParams
  {
    assert Sane(n);
    var m := n.children[0];
    DepthAtMost(n.children, 0);
    assert Sane(m) && RadixParams.Deep(m);
    if |m.children| > 0 {
      ChildSafe(m, 0);
      DepthAtMost(m.children, 0);
      assert RadixParams.Deep(m.children[0]);
    }
  }

  /**
   * Saving a parameter: a slice without enough capacity for the node's `maxParams` is replaced by an empty one
   * that has it, then the slice grows by one within its capacity.  `kept` says that nothing saved was lost and
   * the capacity was enough.
   */
  method SaveParam(saved: seq<Param>, capacity: nat, maxParams: nat, param: Param)
      returns (params: seq<Param>, cap: nat, kept: bool)
    ensures cap == Max(capacity, maxParams)
    ensures kept <==> |saved| + 1 <= cap && (|saved| == 0 || maxParams <= capacity)
    ensures kept ==> params == saved + [param]
  {
    params, cap, kept := saved, capacity, true;
    if cap < maxParams {
      kept := |params| == 0;
      params, cap := [], maxParams;
    }
    kept := kept && |params| + 1 <= cap;
    params := params + [param];
  }

  /**
   * The loop of `getValue`, with a slice of parameters that may already have room, on any tree the router can
   * have built.  The slice is never extended past its capacity, and replacing it never loses a parameter; a
   * wildcard child always is a parameter or a catch-all.
   */
  method GetValue(root: Node, path: Bytes, capacity: nat)
      returns (handlers: Option<Handlers>, params: seq<Param>, kept: bool, known: bool)
    requires RadixParams.IsDeep(root)
    ensures kept && known
    ensures Get(root, path) == if handlers.Some? then Found(handlers.value, params) else NotFound
  {
    var n: Node, p: Bytes, cap: nat := root, path, capacity;
    params, kept, known := [], true, true;
    while true
      invariant Stands(n, |params|, cap) && kept && known
      invariant Get(root, path) == SaveAll(params, Get(n, p))
      decreases n
    {
      if |p| > |n.path| {
        if p[..|n.path|] == n.path {
          p := p[|n.path|..];
          if !n.wildChild {
            var i := IndexOf(n.indices, p[0]);
            if i == |n.indices| {
              return None, params, kept, known;
            }
            StepStatic(n, i, |params|, cap);
            n := n.children[i];
            continue;
          }
          StepWild(n, |params|, cap);
          n := n.children[0];
          known := n.nType.ParamNode? || n.nType.CatchAll?;
          if n.nType.ParamNode? {
            var end := SegmentEnd(p);
            assert Get(n, p) == Save(Param(n.path[1..], p[..end]), AfterSegment(n, p, end));
            SaveOne(params, Param(n.path[1..], p[..end]), AfterSegment(n, p, end));
            params, cap, kept := SaveParam(params, cap, n.maxParams, Param(n.path[1..], p[..end]));
            if end < |p| {
              if |n.children| > 0 {
                p := p[end..];
                n := n.children[0];
                continue;
              }
              return None, params, kept, known;
            }
            return n.handlers, params, kept, known;
          }
          SaveOne(params, Param(n.path[2..], p), Hit(n.handlers));
          params, cap, kept := SaveParam(params, cap, n.maxParams, Param(n.path[2..], p));
          return n.handlers, params, kept, known;
        }
      } else if p == n.path {
        return n.handlers, params, kept, known;
      }
      return None, params, kept, known;
    }
  }

  // ----- Moving a child up -----

  lemma MovedSwap<T>(s: seq<T>, pos: nat, q: nat)
    requires 0 < q <= pos < |s|
    ensures Moved(s, pos, q)[q - 1 := s[pos]][q := s[q - 1]] == Moved(s, pos, q - 1)
    ensures Moved(s, pos, q)[q - 1] == s[q - 1] && Moved(s, pos, q)[q] == s[pos]
  {
  }

  /** The loop that moves a child up by swapping neighbours. */
  method IncrementChildPrio(n: Node, pos: nat) returns (r: Node, newPos: nat)
    requires pos < |n.children| == |n.indices|
    ensures (r, newPos) == RadixTree.IncrementChildPrio(n, pos)
  {
    var child := n.children[pos].(priority := n.children[pos].priority + 1);
    var children := n.children[pos := child];
    var prio := child.priority;
    ghost var base := children;
    newPos := pos;
    assert Moved(base, pos, pos) == base;
    while newPos > 0 && children[newPos - 1].priority < prio
      invariant newPos <= pos && children == Moved(base, pos, newPos) && |children| == |base|
      invariant NewPos(n.children, pos, prio) == NewPos(n.children, newPos, prio)
    {
      MovedSwap(base, pos, newPos);
      children := children[newPos - 1 := children[newPos]][newPos := children[newPos - 1]];
      newPos := newPos - 1;
    }
    if newPos > 0 {
      MovedSwap(base, pos, newPos);
    }
    var indices := n.indices;
    if newPos != pos {
      indices := n.indices[..newPos] + n.indices[pos..pos + 1] + n.indices[newPos..pos] + n.indices[pos + 1..];
    }
    MovedIndices(n.indices, pos, newPos);
    r := n.(children := children, indices := indices);
  }

  lemma MovedIndices(s: Bytes, pos: nat, q: nat)
    requires q <= pos < |s|
    ensures s[..q] + s[pos..pos + 1] + s[q..pos] + s[pos + 1..] == Moved(s, pos, q)
    ensures Moved(s, pos, pos) == s
  {
    assert s[pos..pos + 1] == [s[pos]];
  }

  // ----- The router -----

  /** Whatever the router takes for a path: parameters anywhere, catch-alls, any number of wildcards. */
  predicate AnyPaths(routes: seq<Route>) {
    forall i | 0 <= i < |routes| :: |routes[i].path| > 0
  }

  predicate AtMost(routes: seq<Route>, k: nat) {
    forall i | 0 <= i < |routes| :: Colons(routes[i].path) <= k
  }

  predicate FewWildcards(routes: seq<Route>) {
    AtMost(routes, 255)
  }

  /** Every sequence of accepted routes: the shape, the exact parameter counts, and the priorities. */
  lemma {:induction false} TreeKeeps(routes: seq<Route>)
    requires AnyPaths(routes) && AddAll(routes).Ok?
    ensures RadixParams.IsDeep(AddAll(routes).n) && Depth(AddAll(routes).n) <= 255
    ensures FewWildcards(routes) ==>
      RadixOrder.Ranked(AddAll(routes).n) && RadixOrder.Count(AddAll(routes).n) == |routes|
    decreases |routes|
  {
    if |routes| == 0 {
      RadixParams.EmptyIsDeep();
    } else {
      var k := |routes| - 1;
      TreeKeeps(routes[..k]);
      var root := AddAll(routes[..k]).n;
      RadixParams.AddRouteDeep(root, routes[k].path, routes[k].handlers);
      if FewWildcards(routes) {
        RadixOrder.AddRouteRanked(root, routes[k].path, routes[k].handlers);
      }
    }
  }

  /** Every tree of routes with at most `k` wildcards holds them all, with the right priorities. */
  ghost predicate HoldsAll(k: nat) {
    forall routes | AnyPaths(routes) && AtMost(routes, k) && AddAll(routes).Ok? ::
      RadixOrder.Ranked(AddAll(routes).n) && RadixOrder.Count(AddAll(routes).n) == |routes|
  }

  /** The bound is exact: with one wildcard more a route can be lost. */
  lemma LimitExact(k: nat)
    ensures HoldsAll(k) <==> k <= 255
  {
    if k <= 255 {
      forall routes | AnyPaths(routes) && AtMost(routes, k) && AddAll(routes).Ok?
        ensures RadixOrder.Ranked(AddAll(routes).n) && RadixOrder.Count(AddAll(routes).n) == |routes|
      {
        TreeKeeps(routes);
      }
    } else {
      var routes := TwoLongRoutes();
      assert AtMost(routes, k);
    }
  }

  lemma TwoLongRoutes() returns (routes: seq<Route>)
    ensures AnyPaths(routes) && AtMost(routes, 256) && AddAll(routes).Ok?
    ensures !RadixOrder.Ranked(AddAll(routes).n)
  {
    var p1, p2 := RadixLimit.Long(255, [SLASH]), RadixLimit.Long(255, RadixLimit.SEGMENT);
    RadixLimit.RouteLost(1, 2);
    var first := [Route(p1, 1)];
    routes := [Route(p1, 1), Route(p2, 2)];
    assert first[..0] == [] && AddAll([]) == Ok(EmptyNode);
    assert AddAll(first) == RadixTree.AddRoute(EmptyNode, p1, 1);
    assert routes[..1] == first;
  }

  /** The route whose segments the path has, with the segments its wildcards take. */
  ghost predicate Takes(r: Route, p: Bytes, h: Handlers, params: seq<Param>) {
    r.handlers == h && Segments(CleanPath.Split(r.path), CleanPath.Split(p)) == Some(params)
  }

  ghost predicate NoneTakes(routes: seq<Route>, p: Bytes) {
    forall i | 0 <= i < |routes| :: Segments(CleanPath.Split(routes[i].path), CleanPath.Split(p)) == None
  }

  /** Wildcards and catch-alls are whole segments. */
  predicate AllWhole(routes: seq<Route>) {
    forall i | 0 <= i < |routes| :: Whole(routes[i].path)
  }

  lemma SegmentsDecide(routes: seq<Route>, p: Bytes)
    requires AllAddable(routes) && AllWhole(routes) && AddAll(routes).Ok?
    ensures var f := Get(AddAll(routes).n, p);
      if f.Found? then exists i :: 0 <= i < |routes| && Takes(routes[i], p, f.handlers, f.params) else NoneTakes(routes, p)
  {
    TreeIsRoutes(routes, p);
    assert Routes(AddAll(routes).n, routes, p);
    forall i | 0 <= i < |routes|
      ensures Match(routes[i].path, p) == Segments(CleanPath.Split(routes[i].path), CleanPath.Split(p))
    {
      RouteIsTail(routes[i].path);
      MatchIsSegments(routes[i].path, p);
    }
    var f := Get(AddAll(routes).n, p);
    if f.Found? {
      var i :| 0 <= i < |routes| && Match(routes[i].path, p).Some?;
      assert Takes(routes[i], p, f.handlers, f.params);
    }
  }

  predicate AllStatic(routes: seq<Route>) {
    forall i | 0 <= i < |routes| :: Colons(routes[i].path) == 0
  }

  lemma {:induction false} StaticTree(routes: seq<Route>)
    requires AllAddable(routes) && AllStatic(routes) && AddAll(routes).Ok?
    ensures IsTree(AddAll(routes).n) && (if |routes| == 0 then IsEmpty(AddAll(routes).n) else RadixNames.Named(AddAll(routes).n, []))
    decreases |routes|
  {
    if |routes| > 0 {
      var k := |routes| - 1;
      StaticTree(routes[..k]);
      var root := AddAll(routes[..k]).n;
      AddRouteOk(root, routes[k].path, routes[k].handlers);
      RadixNames.AddRouteNamed(root, routes[k].path, routes[k].handlers);
    }
  }

  lemma StaticMatch(path: Bytes, p: Bytes)
    requires Colons(path) == 0
    ensures Match(path, p) == if path == p then Some([]) else None
  {
    NoColons(path);
    MatchPlain(path, [], p);
    assert path + [] == path;
  }

  /** A tree of static routes is a map from paths to handlers, and reports the path it was asked for. */
  lemma StaticIsMap(routes: seq<Route>, p: Bytes)
    requires AllAddable(routes) && AllStatic(routes) && AddAll(routes).Ok?
    ensures forall i | 0 <= i < |routes| && routes[i].path == p ::
      Get(AddAll(routes).n, p) == Found(routes[i].handlers, []) && RadixNames.GetFull(AddAll(routes).n, p) == Some(p)
    ensures (forall i | 0 <= i < |routes| :: routes[i].path != p) ==>
      Get(AddAll(routes).n, p) == NotFound && RadixNames.GetFull(AddAll(routes).n, p) == None
  {
    var root := AddAll(routes).n;
    TreeIsRoutes(routes, p);
    StaticRoutes(root, routes, p);
    StaticFull(routes, p);
  }

  lemma StaticRoutes(root: Node, routes: seq<Route>, p: Bytes)
    requires AllStatic(routes) && Routes(root, routes, p)
    ensures forall i | 0 <= i < |routes| && routes[i].path == p :: Get(root, p) == Found(routes[i].handlers, [])
    ensures (forall i | 0 <= i < |routes| :: routes[i].path != p) ==> Get(root, p) == NotFound
  {
    forall i | 0 <= i < |routes|
      ensures Match(routes[i].path, p) == if routes[i].path == p then Some([]) else None
    {
      StaticMatch(routes[i].path, p);
    }
  }

  lemma StaticFull(routes: seq<Route>, p: Bytes)
    requires AllAddable(routes) && AllStatic(routes) && AddAll(routes).Ok?
    ensures RadixNames.GetFull(AddAll(routes).n, p) == if Get(AddAll(routes).n, p).Found? then Some(p) else None
  {
    StaticTree(routes);
    if |routes| > 0 {
      RadixNames.FullIsPath(AddAll(routes).n, [], p);
      assert [] + p == p;
    }
  }

  ghost predicate NoneEmpty(ps: seq<Param>) {
    forall i | 0 <= i < |ps| :: |ps[i].value| > 0
  }

  lemma {:induction false} NonEmptySegments(ws: seq<Bytes>, vs: seq<Bytes>, ps: seq<Param>)
    requires |ws| > 0 && |vs| > 0 && Segments(ws, vs) == Some(ps)
    requires forall i | 0 <= i < |vs| - 1 :: |vs[i]| > 0
    ensures NoneEmpty(ps)
    decreases |ws|
  {
    if |ws| == 2 && IsStar(ws[1]) {
      assert ps == Segment(ws[0], vs[0], false).value + [Param(ws[1][1..], Rooted(vs[1..]))];
    } else if |ws| > 1 && |vs| > 1 {
      NonEmptySegments(ws[1..], vs[1..], Segments(ws[1..], vs[1..]).value);
    }
  }

  /** In a cleaned path no wildcard takes an empty segment. */
  lemma CleanedValues(r: Route, raw: Bytes, h: Handlers, ps: seq<Param>)
    requires Addable(r.path) && Takes(r, CleanPath.Clean(raw), h, ps)
    ensures NoneEmpty(ps)
  {
    var ws, vs := CleanPath.Split(r.path), CleanPath.Split(CleanPath.Clean(raw));
    SplitFirst(r.path, 0);
    CleanedSegments(raw);
    RootedValues(ws, vs, ps);
  }

  lemma CleanedSegments(raw: Bytes)
    ensures var vs := CleanPath.Split(CleanPath.Clean(raw));
      |vs| > 0 && vs[0] == [] && forall i | 0 <= i < |vs[1..]| - 1 :: |vs[1..][i]| > 0
  {
    CleanPath.SplitNoSlash(raw);
    CleanPath.ResolveKeepsNames(CleanPath.Split(raw), []);
    var cs: CleanPath.Names := CleanPath.Components(raw);
    CleanPath.SplitShown(cs, CleanPath.Trailing(raw));
    CleanedRest(cs, CleanPath.Split(CleanPath.Clean(raw)));
  }

  lemma RootedValues(ws: seq<Bytes>, vs: seq<Bytes>, ps: seq<Param>)
    requires |ws| > 0 && |vs| > 0 && ws[0] == [] && vs[0] == [] && Segments(ws, vs) == Some(ps)
    requires forall i | 0 <= i < |vs[1..]| - 1 :: |vs[1..][i]| > 0
    ensures NoneEmpty(ps)
  {
    if |ws| == 2 && IsStar(ws[1]) {
      assert ps == [] + [Param(ws[1][1..], Rooted(vs[1..]))];
    } else if |ws| > 1 && |vs| > 1 {
      NonEmptySegments(ws[1..], vs[1..], Segments(ws[1..], vs[1..]).value);
    }
  }

  lemma CleanedRest(cs: CleanPath.Names, vs: seq<Bytes>)
    requires vs == [[]] + cs || vs == [[]] + cs + [[]]
    ensures forall i | 0 <= i < |vs[1..]| - 1 :: |vs[1..][i]| > 0
  {
    assert forall i | 0 <= i < |cs| :: CleanPath.Word(cs[i]) && cs[i] == vs[i + 1];
  }

  /** The tree of these routes; behind a quantifier, so that it is built only where asked for. */
  ghost predicate IsTreeOf(root: Node, routes: seq<Route>) {
    forall u | u == routes :: AnyPaths(u) && AddAll(u) == Ok(root)
  }

  method TryRoute(root: Node, path: Bytes, h: Handlers) returns (r: Added)
    ensures Gives(root, path, h, r)
  {
    r := RadixTree.AddRoute(root, path, h);
  }

  lemma NoRoutes()
    ensures IsTreeOf(EmptyNode, [])
  {
    assert AddAll([]) == Ok(EmptyNode);
  }

  lemma OneMoreRoute(routes: seq<Route>, root: Node, path: Bytes, h: Handlers, more: seq<Route>, r: Added)
    requires IsTreeOf(root, routes) && |path| > 0 && more == routes + [Route(path, h)] && Gives(root, path, h, r)
    ensures r.Ok? ==> IsTreeOf(r.n, more)
    ensures AllAddable(more) ==> (r.Ok? <==> Acceptable(routes, path))
  {
    assert AnyPaths(routes) && AddAll(routes) == Ok(root);
    assert RadixTree.AddRoute(root, path, h) == r;
    AddedLast(routes, root, path, h, more);
    if AllAddable(more) {
      assert more[|routes|].path == path;
      assert forall i | 0 <= i < |routes| :: routes[i] == more[i];
      RadixClash.RefusedExactly(routes, Route(path, h));
    }
  }

  lemma AddedLast(routes: seq<Route>, root: Node, path: Bytes, h: Handlers, more: seq<Route>)
    requires AnyPaths(routes) && AddAll(routes) == Ok(root) && |path| > 0 && more == routes + [Route(path, h)]
    ensures AnyPaths(more) && AddAll(more) == RadixTree.AddRoute(root, path, h)
  {
    assert more[..|routes|] == routes;
  }

  /** Every wildcard has a name, and no registered route clashes with the path. */
  ghost predicate Acceptable(routes: seq<Route>, path: Bytes) {
    !RadixClash.BadName(path) && !RadixClash.ClashesWithOne(routes, path)
  }

  type Method = Bytes

  /** Each method's tree is that of its routes. */
  ghost predicate TreesOf(trees: map<Method, Node>, routes: map<Method, seq<Route>>) {
    && trees.Keys == routes.Keys
    && forall m | m in trees :: IsTreeOf(trees[m], routes[m])
  }

  lemma TreesUpdate(trees: map<Method, Node>, routes: map<Method, seq<Route>>, m: Method, root: Node, more: seq<Route>)
    requires TreesOf(trees, routes) && IsTreeOf(root, more)
    ensures TreesOf(trees[m := root], routes[m := more])
  {
  }

  /** A tree for each HTTP method that has routes. */
  class Engine {
    var trees: map<Method, Node>
    ghost var routes: map<Method, seq<Route>>

    ghost predicate Valid()
      reads this
    {
      TreesOf(trees, routes)
    }

    ghost function RoutesOf(m: Method): seq<Route>
      reads this
    {
      if m in routes then routes[m] else []
    }

    constructor ()
      ensures Valid() && routes == map[]
    {
      trees, routes := map[], map[];
    }

    /**
     * Any path that starts with a slash may be tried.  A conflict panics in the original; here nothing is
     * added.  It is said exactly when there is a conflict.
     */
    method AddRoute(m: Method, path: Bytes, h: Handlers) returns (ok: bool)
      requires Valid() && |path| > 0 && path[0] == SLASH
      modifies this
      ensures Valid() && forall k | k != m :: RoutesOf(k) == old(RoutesOf(k))
      ensures RoutesOf(m) == old(RoutesOf(m)) + if ok then [Route(path, h)] else []
      ensures AllAddable(old(RoutesOf(m)) + [Route(path, h)]) ==> (ok <==> old(Acceptable(RoutesOf(m), path)))
    {
      var root := if m in trees then trees[m] else EmptyNode;
      ghost var was := RoutesOf(m);
      ghost var more := was + [Route(path, h)];
      NoRoutes();
      var r := TryRoute(root, path, h);
      OneMoreRoute(was, root, path, h, more, r);
      ok := r.Ok?;
      if ok {
        TreesUpdate(trees, routes, m, r.n, more);
        trees := trees[m := r.n];
        routes := routes[m := more];
      }
    }

    /**
     * A request: its path is cleaned and looked up in the tree of its method.  What is found is what the tree
     * holds for the path, with every parameter kept: the one route that matches it.
     */
    method HandleRequest(m: Method, raw: Bytes, capacity: nat) returns (handlers: Option<Handlers>, params: seq<Param>)
      requires Valid()
      ensures m !in trees ==> handlers == None
      ensures m in trees ==>
        Get(trees[m], CleanPath.Clean(raw)) == if handlers.Some? then Found(handlers.value, params) else NotFound
      ensures AllAddable(RoutesOf(m)) ==> Answers(RoutesOf(m), CleanPath.Clean(raw), handlers, params)
      ensures AllAddable(RoutesOf(m)) && AllWhole(RoutesOf(m)) ==> AnswersSegments(RoutesOf(m), raw, handlers, params)
    {
      var p := CleanPath.CleanPath(raw);
      if m !in trees {
        return None, [];
      }
      assert AnyPaths(routes[m]) && AddAll(routes[m]) == Ok(trees[m]);
      TreeKeeps(routes[m]);
      var kept, known;
      handlers, params, kept, known := GetValue(trees[m], p, capacity);
      if AllAddable(routes[m]) {
        Answered(routes[m], p, handlers, params);
        if AllWhole(routes[m]) {
          SegmentsAnswered(routes[m], raw, handlers, params);
        }
      }
    }
  }

  ghost predicate MatchedBy(r: Route, p: Bytes, h: Handlers, params: seq<Param>) {
    r.handlers == h && Match(r.path, p) == Some(params)
  }

  /** The one route that matches the path; or none does. */
  ghost predicate Answers(routes: seq<Route>, p: Bytes, handlers: Option<Handlers>, params: seq<Param>) {
    && AtMostOne(routes, p)
    && if handlers.Some? then exists i :: 0 <= i < |routes| && MatchedBy(routes[i], p, handlers.value, params)
       else forall i | 0 <= i < |routes| :: Match(routes[i].path, p) == None
  }

  lemma Answered(routes: seq<Route>, p: Bytes, handlers: Option<Handlers>, params: seq<Param>)
    requires AllAddable(routes) && AddAll(routes).Ok?
    requires Get(AddAll(routes).n, p) == if handlers.Some? then Found(handlers.value, params) else NotFound
    ensures Answers(routes, p, handlers, params)
  {
    TreeIsRoutes(routes, p);
    assert Routes(AddAll(routes).n, routes, p) && AtMostOne(routes, p);
    if handlers.Some? {
      var i :| 0 <= i < |routes| && Match(routes[i].path, p).Some?;
      assert MatchedBy(routes[i], p, handlers.value, params);
    }
  }

  /** Segment by segment, with non-empty parameter values. */
  ghost predicate AnswersSegments(routes: seq<Route>, raw: Bytes, handlers: Option<Handlers>, params: seq<Param>) {
    if handlers.Some? then
      NoneEmpty(params) && exists i :: 0 <= i < |routes| && Takes(routes[i], CleanPath.Clean(raw), handlers.value, params)
    else NoneTakes(routes, CleanPath.Clean(raw))
  }

  lemma SegmentsAnswered(routes: seq<Route>, raw: Bytes, handlers: Option<Handlers>, params: seq<Param>)
    requires AllAddable(routes) && AllWhole(routes) && AddAll(routes).Ok?
    requires Get(AddAll(routes).n, CleanPath.Clean(raw)) ==
      if handlers.Some? then Found(handlers.value, params) else NotFound
    ensures AnswersSegments(routes, raw, handlers, params)
  {
    SegmentsDecide(routes, CleanPath.Clean(raw));
    if handlers.Some? {
      var i :| 0 <= i < |routes| && Takes(routes[i], CleanPath.Clean(raw), handlers.value, params);
      CleanedValues(routes[i], raw, handlers.value, params);
    }
  }
}
