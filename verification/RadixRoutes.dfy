/** What a tree of routes finds, said without the tree. */
module RadixRoutes {
  import opened Prelude
  import opened RadixTree
  import CleanPath

  datatype Route = Route(path: Bytes, handlers: Handlers)

  /** Routes added one after the other to an empty tree. */
  function AddAll(routes: seq<Route>): Added {
    if |routes| == 0 then Ok(EmptyNode)
    else
      match AddAll(routes[..|routes| - 1])
      case Conflict => Conflict
      case Ok(root) => AddRoute(root, routes[|routes| - 1].path, routes[|routes| - 1].handlers)
  }

  predicate AllAddable(routes: seq<Route>) {
    forall i | 0 <= i < |routes| :: Addable(routes[i].path)
  }

  /** A path is found by the one route that matches it, if any. */
  ghost predicate Routes(root: Node, routes: seq<Route>, p: Bytes) {
    && (forall i | 0 <= i < |routes| && Match(routes[i].path, p).Some? ::
          Get(root, p) == Found(routes[i].handlers, Match(routes[i].path, p).value))
    && (Get(root, p).Found? ==> exists i :: 0 <= i < |routes| && Match(routes[i].path, p).Some?)
  }

  ghost predicate AtMostOne(routes: seq<Route>, p: Bytes) {
    forall i, j | 0 <= i < j < |routes| :: !(Match(routes[i].path, p).Some? && Match(routes[j].path, p).Some?)
  }

  /** `Routes` and `AtMostOne`, met by a proof only where it asks for them. */
  ghost predicate Decided(root: Node, routes: seq<Route>, p: Bytes) {
    forall q | q == p :: Routes(root, routes, q) && AtMostOne(routes, q)
  }

  lemma OneMore(root: Node, root': Node, front: seq<Route>, r: Route, p: Bytes)
    requires Decided(root, front, p) && Effect(Get(root, p), Get(root', p), Match(r.path, p), r.handlers)
    ensures Decided(root', front + [r], p)
  {
    assert Routes(root, front, p) && AtMostOne(front, p);
    OneMoreFound(root, root', front, r, p);
    OneMoreUnique(root, front, r, p);
  }

  lemma OneMoreFound(root: Node, root': Node, front: seq<Route>, r: Route, p: Bytes)
    requires Routes(root, front, p) && Effect(Get(root, p), Get(root', p), Match(r.path, p), r.handlers)
    ensures Routes(root', front + [r], p)
  {
    var routes := front + [r];
    forall i | 0 <= i < |routes| && Match(routes[i].path, p).Some?
      ensures Get(root', p) == Found(routes[i].handlers, Match(routes[i].path, p).value)
    {
      if i < |front| {
        assert routes[i] == front[i];
      }
    }
    if Get(root', p).Found? {
      if Match(r.path, p).Some? {
        assert Match(routes[|front|].path, p).Some?;
      } else {
        var i :| 0 <= i < |front| && Match(front[i].path, p).Some?;
        assert Match(routes[i].path, p).Some?;
      }
    }
  }

  lemma OneMoreUnique(root: Node, front: seq<Route>, r: Route, p: Bytes)
    requires Routes(root, front, p) && AtMostOne(front, p) && (Match(r.path, p).Some? ==> Get(root, p) == NotFound)
    ensures AtMostOne(front + [r], p)
  {
    var routes := front + [r];
    forall i, j | 0 <= i < j < |routes|
      ensures !(Match(routes[i].path, p).Some? && Match(routes[j].path, p).Some?)
    {
      assert routes[i] == front[i];
      if j < |front| {
        assert routes[j] == front[j];
      }
    }
  }

  lemma TreeIsRoutes(routes: seq<Route>, p: Bytes)
    requires AllAddable(routes) && AddAll(routes).Ok?
    ensures IsTree(AddAll(routes).n)
    ensures Decided(AddAll(routes).n, routes, p)
  {
    TreeDecides(routes, AddAll(routes).n, p);
  }

  /** The routes make the tree; behind a quantifier, so that it is built only where asked for. */
  ghost predicate Makes(routes: seq<Route>, root: Node) {
    forall u | u == routes :: AddAll(u) == Ok(root)
  }

  /** Adding a route comes to that; behind a quantifier as well. */
  ghost predicate Gives(root: Node, path: Bytes, h: Handlers, r: Added) {
    forall u | u == root :: AddRoute(u, path, h) == r
  }

  lemma MakesLast(routes: seq<Route>, root': Node) returns (root: Node)
    requires |routes| > 0 && Makes(routes, root')
    ensures var k := |routes| - 1;
      Makes(routes[..k], root) && Gives(root, routes[k].path, routes[k].handlers, Ok(root'))
  {
    assert AddAll(routes) == Ok(root');
    root := AddAll(routes[..|routes| - 1]).n;
  }

  lemma GivenEffect(root: Node, path: Bytes, h: Handlers, root': Node, p: Bytes)
    requires IsTree(root) && Addable(path) && Gives(root, path, h, Ok(root'))
    ensures IsTree(root') && Effect(Get(root, p), Get(root', p), Match(path, p), h)
  {
    assert AddRoute(root, path, h) == Ok(root');
    AddRouteOk(root, path, h);
  }

  lemma {:induction false} TreeDecides(routes: seq<Route>, root': Node, p: Bytes)
    requires AllAddable(routes) && Makes(routes, root')
    ensures IsTree(root') && Decided(root', routes, p)
    decreases |routes|
  {
    if |routes| > 0 {
      var k := |routes| - 1;
      var front, r := routes[..k], routes[k];
      var root := MakesLast(routes, root');
      TreeDecides(front, root, p);
      GivenEffect(root, r.path, r.handlers, root', p);
      OneMore(root, root', front, r, p);
      assert front + [r] == routes;
    } else {
      NothingDecided(routes, root', p);
    }
  }

  lemma NothingDecided(routes: seq<Route>, root: Node, p: Bytes)
    requires |routes| == 0 && Makes(routes, root)
    ensures IsTree(root) && Decided(root, routes, p)
  {
    assert AddAll(routes) == Ok(root);
    assert Routes(root, routes, p) && AtMostOne(routes, p);
  }

  // ----- Segment by segment -----

  /** Wildcards and catch-alls are whole segments. */
  predicate Whole(path: Bytes) {
    forall i, j | 0 < i < |path| && IsWildByte(path[i]) && j == i - 1 :: path[j] == SLASH
  }

  lemma WholeFrom(path: Bytes, i: nat)
    requires Whole(path) && i <= |path|
    ensures Whole(path[i..])
  {
    var t := path[i..];
    forall k, j | 0 < k < |t| && IsWildByte(t[k]) && j == k - 1
      ensures t[j] == SLASH
    {
      assert path[i + k] == t[k] && i + j == i + k - 1;
    }
  }

  predicate IsStar(w: Bytes) {
    |w| > 0 && w[0] == STAR
  }

  /** Segments put together again, each behind a slash. */
  function Rooted(vs: seq<Bytes>): Bytes {
    if |vs| == 0 then [] else [SLASH] + vs[0] + Rooted(vs[1..])
  }

  predicate IsWild(w: Bytes) {
    |w| > 0 && w[0] == COLON
  }

  /** One segment; a wildcard takes any, except that nothing after the last slash is not a segment. */
  function Segment(w: Bytes, v: Bytes, last: bool): Option<seq<Param>> {
    if IsWild(w) then (if last && |v| == 0 then None else Some([Param(w[1..], v)]))
    else if w == v then Some([]) else None
  }

  /** The segments of a pattern and of a path, one by one; a catch-all takes all that are left, one at least. */
  function Segments(ws: seq<Bytes>, vs: seq<Bytes>): Option<seq<Param>>
    requires |ws| > 0 && |vs| > 0
    decreases |ws|
  {
    if |ws| == 2 && IsStar(ws[1]) then
      if |vs| == 1 then None
      else Both(Segment(ws[0], vs[0], false), Some([Param(ws[1][1..], Rooted(vs[1..]))]))
    else if |ws| == 1 && |vs| == 1 then Segment(ws[0], vs[0], true)
    else if |ws| == 1 || |vs| == 1 then None
    else
      match (Segment(ws[0], vs[0], false), Segments(ws[1..], vs[1..]))
      case (Some(a), Some(b)) => Some(a + b)
      case _ => None
  }

  lemma NoSlashBefore(p: Bytes, e: nat)
    requires e == SegEnd(p)
    ensures CleanPath.NoSlash(p[..e])
  {
    forall k | 0 <= k < e
      ensures p[..e][k] != SLASH
    {
      SegEndBefore(p, k);
    }
  }

  lemma Recombine(p: Bytes, e: nat)
    requires e < |p| && p[e] == SLASH
    ensures p == p[..e] + [CleanPath.SLASH] + p[e + 1..]
  {
  }

  lemma SplitFirst(p: Bytes, e: nat)
    requires e == SegEnd(p)
    ensures e == |p| ==> CleanPath.Split(p) == [p]
    ensures e < |p| ==> CleanPath.Split(p) == [p[..e]] + CleanPath.Split(p[e + 1..])
  {
    NoSlashBefore(p, e);
    if e == |p| {
      assert p[..e] == p;
      CleanPath.SplitWord(p, []);
    } else {
      Recombine(p, e);
      CleanPath.SplitWord(p[..e], p[e + 1..]);
    }
  }

  /** What is left of the pattern and the path after their first segments. */
  function Later(t: Bytes, r: Bytes): Option<seq<Param>> {
    if |t| == 0 && |r| == 0 then Some([])
    else if |t| == 0 || |r| == 0 then None
    else if StarHere(t) then Some([Param(t[2..], r)])
    else Match(t[1..], r[1..])
  }

  lemma MatchLater(t: Bytes, r: Bytes)
    requires |t| > 0 ==> t[0] == SLASH
    ensures Match(t, r) == if |t| > 0 && |r| > 0 && r[0] != SLASH then None else Later(t, r)
  {
  }

  lemma SegEndAt(v: Bytes, p: Bytes)
    requires v <= p && SegEnd(v) == |v| && (|p| > |v| ==> p[|v|] == SLASH)
    ensures SegEnd(p) == |v|
  {
    SegEndConcat(v, p[|v|..]);
    assert p == v + p[|v|..];
  }

  function Both(a: Option<seq<Param>>, b: Option<seq<Param>>): Option<seq<Param>> {
    if a.Some? && b.Some? then Some(a.value + b.value) else None
  }

  lemma WildSegment(w: Bytes, t: Bytes, p: Bytes, s: nat)
    requires IsWild(w) && SegEnd(w) == |w| && (|t| > 0 ==> t[0] == SLASH) && s == SegEnd(p)
    ensures Match(w + t, p) == Both(Segment(w, p[..s], s == |p|), Later(t, p[s..]))
  {
    MatchParam(w, t, p);
    MatchLater(t, p[s..]);
  }

  lemma PlainSegment(w: Bytes, t: Bytes, p: Bytes, s: nat)
    requires !IsWild(w) && Plain(w) && SegEnd(w) == |w| && (|t| > 0 ==> t[0] == SLASH) && s == SegEnd(p)
    ensures Match(w + t, p) == Both(Segment(w, p[..s], s == |p|), Later(t, p[s..]))
  {
    MatchPlain(w, t, p);
    if w == p[..s] {
      assert w <= p && |w| == s;
      MatchLater(t, p[s..]);
      LaterAlone(Later(t, p[s..]));
    } else if w <= p {
      OtherSegment(w, t, p, s);
    }
  }

  lemma LaterAlone(a: Option<seq<Param>>)
    ensures Both(Some([]), a) == a && Both(a, Some([])) == a
  {
    if a.Some? {
      assert [] + a.value == a.value && a.value + [] == a.value;
    }
  }

  lemma OtherSegment(w: Bytes, t: Bytes, p: Bytes, s: nat)
    requires SegEnd(w) == |w| && (|t| > 0 ==> t[0] == SLASH) && s == SegEnd(p) && w != p[..s] && w <= p
    ensures Match(t, p[|w|..]) == None
  {
    LongerSegment(w, p, s);
    MatchLater(t, p[|w|..]);
  }

  lemma LongerSegment(w: Bytes, p: Bytes, s: nat)
    requires SegEnd(w) == |w| && s == SegEnd(p) && w != p[..s] && w <= p
    ensures |p| > |w| && p[|w|] != SLASH
  {
    assert p[..|w|] == w;
    if |p| == |w| || p[|w|] == SLASH {
      SegEndAt(w, p);
    }
  }

  lemma FirstIsPlain(pat: Bytes, w: Bytes)
    requires Whole(pat) && w == pat[..SegEnd(pat)] && !IsWild(w) && !IsStar(pat)
    ensures Plain(w)
  {
    forall k | 0 <= k < |w|
      ensures !IsWildByte(w[k])
    {
      if k > 0 {
        SegEndBefore(pat, k - 1);
        assert pat[k - 1] != SLASH;
      }
    }
  }

  /** Matching from the left goes through the first segment. */
  lemma MatchFirstSegment(pat: Bytes, p: Bytes, e: nat, s: nat)
    requires Whole(pat) && !IsStar(pat) && e == SegEnd(pat) && s == SegEnd(p)
    ensures Match(pat, p) == Both(Segment(pat[..e], p[..s], s == |p|), Later(pat[e..], p[s..]))
  {
    var w, t := pat[..e], pat[e..];
    assert pat == w + t;
    SegEndSelf(pat);
    if IsWild(w) {
      WildSegment(w, t, p, s);
    } else {
      FirstIsPlain(pat, w);
      PlainSegment(w, t, p, s);
    }
  }

  lemma {:induction false} RootedSplit(p: Bytes)
    ensures Rooted(CleanPath.Split(p)) == [SLASH] + p
    decreases |p|
  {
    var e := SegEnd(p);
    SplitFirst(p, e);
    if e < |p| {
      RootedSplit(p[e + 1..]);
      RootedCons(p[..e], CleanPath.Split(p[e + 1..]));
      Recombine(p, e);
      assert [SLASH] + p[..e] + ([SLASH] + p[e + 1..]) == [SLASH] + p;
    } else {
      RootedCons(p, []);
      assert [p] + [] == [p];
    }
  }

  lemma RootedCons(v: Bytes, vs: seq<Bytes>)
    ensures Rooted([v] + vs) == [SLASH] + v + Rooted(vs)
  {
    assert ([v] + vs)[1..] == vs;
  }

  /** Nothing follows a catch-all. */
  lemma StarSegment(pat: Bytes, e: nat)
    requires IsTail(pat) && e < |pat| && StarHere(pat[e..])
    ensures CleanPath.Split(pat[e + 1..]) == [pat[e + 1..]] && IsStar(pat[e + 1..]) && pat[e + 1..][1..] == pat[e..][2..]
  {
    var x := pat[e + 1..];
    assert pat[e..][1] == x[0] == STAR;
    TailFrom(pat, e + 1);
    assert forall k | 0 <= k < |x| :: x[k] != SLASH;
    CleanPath.SplitWord(x, []);
  }

  lemma {:induction false} MatchIsSegments(pat: Bytes, p: Bytes)
    requires IsTail(pat) && Whole(pat) && !IsStar(pat)
    ensures Match(pat, p) == Segments(CleanPath.Split(pat), CleanPath.Split(p))
    decreases |pat|
  {
    var e, s := SegEnd(pat), SegEnd(p);
    MatchFirstSegment(pat, p, e, s);
    SplitFirst(pat, e);
    SplitFirst(p, s);
    if e < |pat| && StarHere(pat[e..]) {
      StarSegments(pat, p, e, s);
    } else if e == |pat| && s == |p| {
      assert pat[..e] == pat && p[..s] == p;
      LaterAlone(Segment(pat, p, true));
    } else if e < |pat| && s < |p| {
      TailFrom(pat, e + 1);
      WholeFrom(pat, e + 1);
      assert !IsStar(pat[e + 1..]) by { assert pat[e..][0] == SLASH; assert |pat| > e + 1 ==> pat[e + 1] == pat[e..][1]; }
      MatchIsSegments(pat[e + 1..], p[s + 1..]);
      assert pat[e..][1..] == pat[e + 1..] && p[s..][1..] == p[s + 1..];
      NoStarFirst(pat[e + 1..]);
      SegmentsCons(pat[..e], CleanPath.Split(pat[e + 1..]), p[..s], CleanPath.Split(p[s + 1..]));
    } else if e < |pat| {
      NoStarFirst(pat[e + 1..]);
    }
  }

  lemma NoStarFirst(t: Bytes)
    requires !IsStar(t)
    ensures |CleanPath.Split(t)| > 0 && !IsStar(CleanPath.Split(t)[0])
  {
    SplitFirst(t, SegEnd(t));
  }

  lemma StarSegments(pat: Bytes, p: Bytes, e: nat, s: nat)
    requires IsTail(pat) && e < |pat| && StarHere(pat[e..]) && e == SegEnd(pat) && s == SegEnd(p)
    ensures Both(Segment(pat[..e], p[..s], s == |p|), Later(pat[e..], p[s..])) == Segments(CleanPath.Split(pat), CleanPath.Split(p))
  {
    SplitFirst(pat, e);
    SplitFirst(p, s);
    StarSegment(pat, e);
    var w, x := pat[..e], pat[e + 1..];
    assert [w] + [x] == [w, x];
    if s < |p| {
      SlashLeft(p, s);
      StarTakes(w, x, p[..s], CleanPath.Split(p[s + 1..]));
    }
  }

  lemma SlashLeft(p: Bytes, s: nat)
    requires s < |p| && p[s] == SLASH
    ensures Rooted(CleanPath.Split(p[s + 1..])) == p[s..]
  {
    RootedSplit(p[s + 1..]);
    assert [SLASH] + p[s + 1..] == p[s..];
  }

  lemma StarTakes(w: Bytes, x: Bytes, v: Bytes, vs: seq<Bytes>)
    requires IsStar(x) && |vs| > 0
    ensures Segments([w, x], [v] + vs) == Both(Segment(w, v, false), Some([Param(x[1..], Rooted(vs))]))
  {
    assert ([v] + vs)[1..] == vs;
  }

  lemma SegmentsCons(w: Bytes, ws: seq<Bytes>, v: Bytes, vs: seq<Bytes>)
    requires |ws| > 0 && |vs| > 0 && !IsStar(ws[0])
    ensures Segments([w] + ws, [v] + vs) == Both(Segment(w, v, false), Segments(ws, vs))
  {
    assert ([w] + ws)[1..] == ws && ([v] + vs)[1..] == vs;
  }
}
