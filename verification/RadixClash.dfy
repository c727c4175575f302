/** When a route is refused: exactly when a wildcard has no name or the route clashes with a registered one. */
module RadixClash {
  import opened Prelude
  import opened RadixTree
  import opened RadixRoutes

  /**
   * Two patterns that cannot be in one tree.  Read from the left, they end together, or a wildcard meets
   * anything but the same wildcard, or the slash of a catch-all meets a slash.
   */
  predicate Clash(a: Bytes, b: Bytes)
    decreases |a|
  {
    if |a| == 0 || |b| == 0 then |a| == |b|
    else if a[0] == COLON && b[0] == COLON then
      SegEndPositive(a);
      if a[..SegEnd(a)] == b[..SegEnd(b)] then Clash(a[SegEnd(a)..], b[SegEnd(b)..]) else true
    else if a[0] == COLON || b[0] == COLON then true
    else if StarHere(a) || StarHere(b) then a[0] == b[0]
    else a[0] == b[0] && Clash(a[1..], b[1..])
  }

  /** A wildcard or catch-all without a name, or with another one in its name; or a catch-all not behind a slash. */
  ghost predicate BadName(path: Bytes) {
    exists i: nat :: i < |path| && NoNameAt(path, i)
  }

  ghost predicate NoNameAt(path: Bytes, i: nat)
    requires i < |path|
  {
    IsWildByte(path[i]) &&
    var e := i + SegEnd(path[i..]);
    e < i + 2 || !NoWild(path, i + 1, e) || (path[i] == STAR && i > 0 && path[i - 1] != SLASH)
  }

  lemma {:induction false} ClashPlain(s: Bytes, a: Bytes, b: Bytes)
    requires Plain(s) && !IsStar(a) && !IsStar(b)
    ensures Clash(s + a, s + b) == Clash(a, b)
    decreases |s|
  {
    if |s| == 0 {
      assert s + a == a && s + b == b;
    } else {
      assert !StarHere(s + a) && !StarHere(s + b);
      ClashPlain(s[1..], a, b);
      assert (s + a)[1..] == s[1..] + a && (s + b)[1..] == s[1..] + b;
    }
  }

  /** A catch-all behind a slash that is there already. */
  lemma {:induction false} ClashStar(s: Bytes, a: Bytes, t: Bytes)
    requires |s| > 0 && Plain(s) && s[|s| - 1] == SLASH && IsStar(t)
    ensures Clash(s + a, s + t)
    decreases |s|
  {
    if |s| == 1 {
      assert StarHere(s + t);
    } else {
      ClashStar(s[1..], a, t);
      assert (s + a)[1..] == s[1..] + a && (s + t)[1..] == s[1..] + t;
    }
  }

  lemma ClashWild(w: Bytes, a: Bytes, b: Bytes)
    requires IsWildcard(w) && (|a| > 0 ==> a[0] == SLASH) && (|b| > 0 ==> b[0] == SLASH)
    ensures Clash(w + a, w + b) == Clash(a, b)
  {
    SegEndConcat(w, a);
    SegEndConcat(w, b);
    assert (w + a)[..|w|] == w == (w + b)[..|w|];
    assert (w + a)[|w|..] == a && (w + b)[|w|..] == b;
  }

  lemma {:induction false} ClashSelf(a: Bytes)
    ensures Clash(a, a)
    decreases |a|
  {
    if |a| > 0 {
      SegEndPositive(a);
      if a[0] == COLON {
        ClashSelf(a[SegEnd(a)..]);
      } else {
        ClashSelf(a[1..]);
      }
    }
  }

  // ----- The patterns in a tree -----

  /** The pattern is stored at or below the node. */
  predicate Holds(n: Node, pat: Bytes)
    decreases n
  {
    n.path <= pat &&
    var rest := pat[|n.path|..];
    if |rest| == 0 then n.handlers.Some?
    else if n.nType.ParamNode? then rest[0] == SLASH && |n.children| > 0 && Holds(n.children[0], rest)
    else if n.wildChild then |n.children| > 0 && Holds(n.children[0], rest)
    else
      var i := Find(n.indices, rest[0]);
      i < |n.indices| && i < |n.children| && Holds(n.children[i], rest)
  }

  lemma Rejoin(s: Bytes, p: Bytes)
    requires s <= p
    ensures p == s + p[|s|..]
  {
  }

  /** A pattern stored below a child starts with the byte the child is entered by. */
  lemma HeadOf(c: Node, b: byte, pat: Bytes)
    requires Enters(c, b) && Holds(c, pat)
    ensures |pat| > 0 && pat[0] == b
  {
    if |c.path| == 0 {
      CatchHolds(c, pat);
    } else {
      assert c.path <= pat;
    }
  }

  lemma CatchHolds(c: Node, pat: Bytes)
    requires (IsAbove(c) || IsCatchTop(c)) && Holds(c, pat)
    ensures pat == TheCatch(c) && StarHere(pat)
  {
    assert pat[0..] == pat;
    if IsCatchTop(c) {
      assert Holds(c.children[0], pat);
    }
    var m := TheVar(c);
    assert Holds(m, pat);
    assert pat == m.path;
  }

  lemma VarHolds(m: Node, pat: Bytes)
    requires IsCatchVar(m) && Holds(m, pat)
    ensures pat == m.path
  {
  }

  /** The catch-all below the node. */
  function TheVar(c: Node): Node
    requires IsAbove(c) || IsCatchTop(c)
  {
    if IsAbove(c) then c.children[0] else c.children[0].children[0]
  }

  function TheCatch(c: Node): Bytes
    requires IsAbove(c) || IsCatchTop(c)
  {
    TheVar(c).path
  }

  /** What is stored below a wildcard starts with it. */
  lemma HeadWild(m: Node, pat: Bytes)
    requires Sound(m) && m.nType.ParamNode? && Holds(m, pat)
    ensures |pat| > 0 && pat[0] == COLON
  {
    ParamNotWild(m);
    assert m.path <= pat;
  }

  /** Where the rest of a stored pattern is stored. */
  function Way(n: Node, rest: Bytes): nat
    requires |rest| > 0
  {
    if n.nType.ParamNode? || n.wildChild then 0 else Find(n.indices, rest[0])
  }

  lemma HeadBelow(n: Node, pat: Bytes)
    requires Sound(n) && (IsOrdinary(n) || n.nType.ParamNode?) && Holds(n, pat) && |pat| > |n.path|
    ensures var rest := pat[|n.path|..];
      && !IsStar(rest) && Way(n, rest) < |n.children| && Holds(n.children[Way(n, rest)], rest)
      && Sound(n.children[Way(n, rest)]) && (n.nType.ParamNode? ==> rest[0] == SLASH)
  {
    var rest := pat[|n.path|..];
    HoldsBelow(n, pat);
    ChildSound(n, Way(n, rest));
    if IsOrdinary(n) && n.wildChild {
      HeadWild(n.children[0], rest);
    }
  }

  lemma HoldsBelow(n: Node, pat: Bytes)
    requires Holds(n, pat) && |pat| > |n.path|
    ensures var rest := pat[|n.path|..];
      && Way(n, rest) < |n.children| && Holds(n.children[Way(n, rest)], rest)
      && (n.nType.ParamNode? ==> rest[0] == SLASH) && (!n.nType.ParamNode? && !n.wildChild ==> Way(n, rest) < |n.indices|)
  {
  }

  /** No two patterns of one tree clash. */
  lemma {:induction false} NoClash(n: Node, a: Bytes, b: Bytes)
    requires Sound(n) && Holds(n, a) && Holds(n, b) && a != b
    ensures !Clash(a, b)
    decreases n, 1
  {
    KindsOf(n);
    if IsAbove(n) || IsCatchTop(n) {
      CatchHolds(n, a);
      CatchHolds(n, b);
    } else if IsCatchVar(n) {
      VarHolds(n, a);
      VarHolds(n, b);
    } else {
      NoClashBelow(n, a, b);
    }
  }

  lemma KindsOf(n: Node)
    requires Sound(n)
    ensures IsAbove(n) || IsCatchTop(n) || IsCatchVar(n) || IsOrdinary(n) || n.nType.ParamNode?
  {
    assert WellFormed(n);
  }

  lemma {:induction false} NoClashBelow(n: Node, a: Bytes, b: Bytes)
    requires Sound(n) && (IsOrdinary(n) || n.nType.ParamNode?) && Holds(n, a) && Holds(n, b) && a != b
    ensures !Clash(a, b)
    decreases n, 0
  {
    var a', b' := a[|n.path|..], b[|n.path|..];
    Rejoin(n.path, a);
    Rejoin(n.path, b);
    if |a'| > 0 {
      HeadBelow(n, a);
    }
    if |b'| > 0 {
      HeadBelow(n, b);
    }
    ClashHere(n, a', b');
    if |a'| > 0 && |b'| > 0 {
      if Way(n, a') == Way(n, b') {
        NoClash(n.children[Way(n, a')], a', b');
      } else {
        OtherWay(n, a', b');
      }
    }
  }

  /** The node's own path makes no difference. */
  lemma ClashHere(n: Node, a: Bytes, b: Bytes)
    requires Sound(n) && (IsOrdinary(n) || n.nType.ParamNode?) && !IsStar(a) && !IsStar(b)
    requires n.nType.ParamNode? ==> (|a| > 0 ==> a[0] == SLASH) && (|b| > 0 ==> b[0] == SLASH)
    ensures Clash(n.path + a, n.path + b) == Clash(a, b)
  {
    if n.nType.ParamNode? {
      ParamNotWild(n);
      ClashWild(n.path, a, b);
    } else {
      PlainPath(n);
      ClashPlain(n.path, a, b);
    }
  }

  lemma OtherWay(n: Node, a: Bytes, b: Bytes)
    requires Sound(n) && IsOrdinary(n) && !n.wildChild && |a| > 0 && |b| > 0 && Way(n, a) != Way(n, b)
    requires Way(n, a) < |n.children| && Way(n, b) < |n.children|
    ensures !Clash(a, b)
  {
    ChildSound(n, Way(n, a));
    ChildSound(n, Way(n, b));
  }

  lemma NoNameIn(s: Bytes, t: Bytes, i: nat)
    requires |s| <= i < |s| + |t| && NoNameAt(s + t, i) && (i == |s| ==> !IsStar(t))
    ensures NoNameAt(t, i - |s|)
  {
    var k := i - |s|;
    assert (s + t)[i..] == t[k..];
    var e := k + SegEnd(t[k..]);
    assert forall j | k + 1 <= j < e :: t[j] == (s + t)[|s| + j];
  }

  /** Every wildcard in a tree has a name. */
  lemma {:induction false} GoodNames(n: Node, pat: Bytes, i: nat)
    requires Sound(n) && Holds(n, pat) && i < |pat|
    ensures !NoNameAt(pat, i)
    decreases n
  {
    KindsOf(n);
    if IsAbove(n) || IsCatchTop(n) {
      CatchHolds(n, pat);
      GoodCatch(TheVar(n), i);
    } else if IsCatchVar(n) {
      VarHolds(n, pat);
      GoodCatch(n, i);
    } else if i < |n.path| {
      GoodHere(n, pat, i);
    } else {
      var rest := pat[|n.path|..];
      HeadBelow(n, pat);
      GoodNames(n.children[Way(n, rest)], rest, i - |n.path|);
      GoodAgain(n.path, pat, rest, i);
    }
  }

  lemma GoodAgain(s: Bytes, pat: Bytes, rest: Bytes, i: nat)
    requires s <= pat && rest == pat[|s|..] && |s| <= i < |pat| && !NoNameAt(rest, i - |s|) && !IsStar(rest)
    ensures !NoNameAt(pat, i)
  {
    Rejoin(s, pat);
    if NoNameAt(s + rest, i) {
      NoNameIn(s, rest, i);
    }
  }

  lemma GoodCatch(m: Node, i: nat)
    requires IsCatchVar(m) && i < |m.path|
    ensures !NoNameAt(m.path, i)
  {
    if i == 1 {
      NoSlashIsWhole(m.path[1..]);
    }
  }

  lemma {:induction false} NoSlashIsWhole(p: Bytes)
    requires forall k | 0 <= k < |p| :: p[k] != SLASH
    ensures SegEnd(p) == |p|
    decreases |p|
  {
    if |p| > 0 {
      NoSlashIsWhole(p[1..]);
    }
  }

  lemma GoodHere(n: Node, pat: Bytes, i: nat)
    requires Sound(n) && (IsOrdinary(n) || n.nType.ParamNode?) && Holds(n, pat) && i < |n.path|
    ensures !NoNameAt(pat, i)
  {
    assert n.path <= pat && pat[i] == n.path[i];
    if n.nType.ParamNode? {
      ParamNotWild(n);
      ParamHolds(n, pat);
      GoodWildcard(n.path, pat, i);
    } else {
      PlainPath(n);
    }
  }

  lemma GoodWildcard(w: Bytes, pat: Bytes, i: nat)
    requires IsWildcard(w) && w <= pat && (|pat| == |w| || pat[|w|] == SLASH) && i < |w|
    ensures !NoNameAt(pat, i)
  {
    assert forall k | 0 <= k < |w| :: pat[k] == w[k];
    if i == 0 {
      SegEndAt(w, pat);
      assert pat[0..] == pat;
    }
  }

  /** Some pattern is stored below every node. */
  lemma {:induction false} Inhabited(n: Node) returns (pat: Bytes)
    requires Sound(n)
    ensures Holds(n, pat) && n.path <= pat
    decreases n
  {
    KindsOf(n);
    if IsAbove(n) || IsCatchTop(n) {
      pat := TheCatch(n);
      CatchHeld(n);
    } else if n.handlers.Some? {
      pat := n.path;
    } else {
      SomethingBelow(n);
      ChildSound(n, 0);
      var rest := Inhabited(n.children[0]);
      pat := n.path + rest;
      LiftHolds(n, 0, rest);
    }
  }

  lemma SomethingBelow(n: Node)
    requires Sound(n) && (IsOrdinary(n) || n.nType.ParamNode? || IsCatchVar(n)) && n.handlers == None
    ensures |n.children| > 0 && (IsOrdinary(n) || n.nType.ParamNode?)
  {
    assert WellFormed(n);
  }

  lemma CatchHeld(n: Node)
    requires IsAbove(n) || IsCatchTop(n)
    ensures Holds(n, TheCatch(n))
  {
    var pat := TheCatch(n);
    assert pat[0..] == pat && pat[0] == SLASH;
    assert Holds(TheVar(n), pat);
    if IsCatchTop(n) {
      assert Holds(n.children[0], pat);
    }
  }

  // ----- Patterns looked up as paths -----

  /** The parameter's value is the wildcard itself, or the catch-all. */
  ghost predicate Own(p: Param) {
    p.value == [COLON] + p.key || p.value == [SLASH, STAR] + p.key
  }

  /** Each wildcard took its own name. */
  ghost predicate Literal(ps: seq<Param>) {
    forall i | 0 <= i < |ps| :: Own(ps[i])
  }

  /** For a wildcard, which takes no slash, that is its colon and its name. */
  lemma OwnSegment(key: Bytes, pat: Bytes)
    ensures Own(Param(key, pat[..SegEnd(pat)])) <==> pat[..SegEnd(pat)] == [COLON] + key
  {
    var v := pat[..SegEnd(pat)];
    if |v| > 0 {
      SegEndBefore(pat, 0);
      assert v[0] != SLASH;
    }
  }

  lemma LiteralCons(p: Param, ps: seq<Param>)
    ensures Literal([p] + ps) <==> Own(p) && Literal(ps)
  {
    var all := [p] + ps;
    assert all[0] == p;
    assert forall i | 0 <= i < |ps| :: all[i + 1] == ps[i];
    if Literal(all) {
      forall i | 0 <= i < |ps|
        ensures Own(ps[i])
      {
        assert all[i + 1] == ps[i];
      }
    }
  }

  ghost predicate FoundLiteral(f: Found) {
    f.Found? && Literal(f.params)
  }

  lemma SaveLiteral(p: Param, f: Found)
    ensures FoundLiteral(Save(p, f)) <==> Own(p) && FoundLiteral(f)
  {
    if f.Found? {
      LiteralCons(p, f.params);
    }
  }

  /** A wildcard's segment is the wildcard itself exactly when the pattern goes on with it. */
  lemma SegmentIsWildcard(w: Bytes, pat: Bytes)
    requires IsWildcard(w)
    ensures pat[..SegEnd(pat)] == [COLON] + w[1..] <==> w <= pat && SegEnd(pat) == |w|
    ensures w <= pat && (|pat| == |w| || pat[|w|] == SLASH) <==> w <= pat && SegEnd(pat) == |w|
  {
    assert [COLON] + w[1..] == w;
    if w <= pat && (|pat| == |w| || pat[|w|] == SLASH) {
      SegEndAt(w, pat);
    }
    if pat[..SegEnd(pat)] == w {
      assert w <= pat;
    }
  }

  /** Stored patterns are those that, looked up as paths, are found with every wildcard taking its own name. */
  lemma {:induction false} HoldsIsGet(n: Node, pat: Bytes)
    requires WellFormed(n) && (IsAbove(n) && |pat| > 0 ==> pat[0] == SLASH)
    ensures Holds(n, pat) <==> FoundLiteral(Get(n, pat))
    decreases n
  {
    if n.nType.ParamNode? {
      ParamHolds(n, pat);
      SegmentIsWildcard(n.path, pat);
      if |pat| > 0 {
        var end := SegEnd(pat);
        if end < |pat| && |n.children| > 0 {
          HoldsIsGet(n.children[0], pat[end..]);
        }
        OwnSegment(n.path[1..], pat);
        SaveLiteral(Param(n.path[1..], pat[..end]),
          if end == |pat| then Hit(n.handlers) else if |n.children| > 0 then Get(n.children[0], pat[end..]) else NotFound);
      }
    } else if IsAbove(n) {
      AboveHolds(n, pat);
    } else if n.path <= pat && |pat| > |n.path| {
      var rest := pat[|n.path|..];
      var c := if n.wildChild then 0 else Find(n.indices, rest[0]);
      if c < |n.children| && (n.wildChild || c < |n.indices|) {
        assert !n.wildChild && IsOrdinary(n) ==> Enters(n.children[c], n.indices[c]);
        HoldsIsGet(n.children[c], rest);
      }
    }
  }

  lemma OwnCatch(w: Bytes, pat: Bytes)
    requires StarHere(w)
    ensures Own(Param(w[2..], pat)) <==> pat == w || pat == [COLON] + w[2..]
  {
    assert [SLASH, STAR] + w[2..] == w;
  }

  lemma AboveHolds(n: Node, pat: Bytes)
    requires IsAbove(n) && (|pat| > 0 ==> pat[0] == SLASH)
    ensures Holds(n, pat) <==> FoundLiteral(Get(n, pat))
  {
    var m := n.children[0];
    assert pat[0..] == pat;
    if |pat| > 0 {
      assert Get(n, pat) == GetCatchAll(m, pat) && (Holds(n, pat) <==> Holds(m, pat));
      SaveLiteral(Param(m.path[2..], pat), Hit(m.handlers));
      OwnCatch(m.path, pat);
      assert Holds(m, pat) <==> pat == m.path;
    }
  }

  lemma ParamHolds(n: Node, pat: Bytes)
    requires n.nType.ParamNode?
    ensures Holds(n, pat) <==>
      && n.path <= pat && (|pat| == |n.path| || pat[|n.path|] == SLASH)
      && if |pat| == |n.path| then n.handlers.Some? else |n.children| > 0 && Holds(n.children[0], pat[|n.path|..])
  {
  }

  /** A route that matches a pattern with its own names is that pattern. */
  lemma {:induction false} MatchLiteral(q: Bytes, pat: Bytes)
    requires Match(q, pat).Some? && Literal(Match(q, pat).value)
    ensures q == pat
    decreases |q|
  {
    if |q| > 0 {
      if q[0] == COLON {
        SegEndPositive(q);
        var e, s := SegEnd(q), SegEnd(pat);
        LiteralCons(Param(q[1..e], pat[..s]), Match(q[e..], pat[s..]).value);
        OwnSegment(q[1..e], pat);
        MatchLiteral(q[e..], pat[s..]);
        assert q[..e] == [COLON] + q[1..e];
        assert q == q[..e] + q[e..] && pat == pat[..s] + pat[s..];
      } else if StarHere(q) {
        LiteralCons(Param(q[2..], pat), []);
        assert [Param(q[2..], pat)] + [] == [Param(q[2..], pat)];
        assert q == [SLASH, STAR] + q[2..];
      } else {
        MatchLiteral(q[1..], pat[1..]);
        assert q == [q[0]] + q[1..] && pat == [pat[0]] + pat[1..];
      }
    }
  }

  lemma {:induction false} MatchSelf(q: Bytes)
    requires IsTail(q)
    ensures Match(q, q).Some? && Literal(Match(q, q).value)
    decreases |q|
  {
    if |q| > 0 {
      if q[0] == COLON {
        SegEndPositive(q);
        var e := SegEnd(q);
        TailFrom(q, e);
        MatchSelf(q[e..]);
        LiteralCons(Param(q[1..e], q[..e]), Match(q[e..], q[e..]).value);
        assert q[..e] == [COLON] + q[1..e];
      } else if StarHere(q) {
        assert q == [SLASH, STAR] + q[2..];
      } else {
        TailFrom(q, 1);
        MatchSelf(q[1..]);
      }
    }
  }

  /** The patterns stored in the tree are the routes registered. */
  lemma HoldsIffRegistered(routes: seq<Route>, pat: Bytes)
    requires AllAddable(routes) && |routes| > 0 && AddAll(routes).Ok?
    ensures WellFormed(AddAll(routes).n)
    ensures Holds(AddAll(routes).n, pat) <==> exists i :: 0 <= i < |routes| && routes[i].path == pat
  {
    var root := AddAll(routes).n;
    TreeIsRoutes(routes, pat);
    assert Routes(root, routes, pat);
    NotEmpty(routes);
    HoldsIsGet(root, pat);
    if Holds(root, pat) {
      var i :| 0 <= i < |routes| && Match(routes[i].path, pat).Some?;
      MatchLiteral(routes[i].path, pat);
    }
    if i :| 0 <= i < |routes| && routes[i].path == pat {
      RouteIsTail(pat);
      MatchSelf(pat);
    }
  }

  lemma EmptyFindsNothing(root: Node, p: Bytes)
    requires IsEmpty(root)
    ensures Get(root, p) == NotFound
  {
  }

  lemma NotEmpty(routes: seq<Route>)
    requires AllAddable(routes) && |routes| > 0 && AddAll(routes).Ok?
    ensures WellFormed(AddAll(routes).n)
  {
    var path := routes[|routes| - 1].path;
    var root := AddAll(routes).n;
    TreeIsRoutes(routes, path);
    RouteIsTail(path);
    MatchSelf(path);
    FoundHere(root, routes, path);
    if IsEmpty(root) {
      EmptyFindsNothing(root, path);
    }
    assert Sound(root) ==> WellFormed(root);
  }

  lemma FoundHere(root: Node, routes: seq<Route>, path: Bytes)
    requires Decided(root, routes, path) && |routes| > 0 && routes[|routes| - 1].path == path && Match(path, path).Some?
    ensures Get(root, path).Found?
  {
    assert Routes(root, routes, path);
  }

  // ----- A refused route has a reason -----

  lemma NoNameLater(path: Bytes, k: nat)
    requires k <= |path| && BadName(path[k..])
    ensures BadName(path)
  {
    var t := path[k..];
    var i: nat :| i < |t| && NoNameAt(t, i);
    assert path[k + i..] == t[i..];
    assert i > 0 ==> path[k + i - 1] == t[i - 1];
    assert forall j | i + 1 <= j < |t| :: path[k + j] == t[j];
    assert NoNameAt(path, k + i);
  }

  /** Where nothing is in the way, only a wildcard without a name is refused. */
  lemma {:induction false} InsertRefused(n: Node, np: nat, path: Bytes, full: Bytes, h: Handlers)
    requires |n.children| == 0 && IsTail(path) && np == Colons(path) && InsertChild(n, np, path, full, h).Conflict?
    requires |path| > 0 && path[0] != STAR && (|n.path| > 0 ==> path[0] == COLON)
    ensures BadName(path)
    decreases |path|, 1
  {
    var i := FindWild(path);
    SomeWild(path);
    if path[i] == STAR {
      CatchRefused(n, np, path, i);
    } else {
      TailFrom(path, i);
      assert Plain(path[..i]);
      ColonsFrom(path, i);
      WildRefused(np, path[i..], full, h);
      NoNameLater(path, i);
    }
  }

  lemma CatchRefused(n: Node, np: nat, path: Bytes, i: nat)
    requires IsTail(path) && np == Colons(path) && 0 < i == FindWild(path) < |path| && path[i] == STAR && |n.path| == 0
    requires !CatchAllFits(n, np, path, i)
    ensures BadName(path)
  {
    var x := path[i..];
    assert x[0] == STAR && forall k | 0 <= k < |x| :: x[k] != SLASH;
    NoSlashIsWhole(x);
    if NoWild(path, i + 1, |path|) {
      assert Plain(path[..i]) && Plain(x[1..]);
      ColonsFrom(path, i);
      ColonsFrom(x[1..], |x| - 1);
      assert x[1..][|x| - 1..] == [];
    }
    assert NoNameAt(path, i);
  }

  lemma {:induction false} SomeWild(path: Bytes)
    ensures Colons(path) > 0 ==> FindWild(path) < |path|
    decreases |path|
  {
    if |path| > 0 {
      SomeWild(path[1..]);
    }
  }

  lemma {:induction false} WildRefused(np: nat, path: Bytes, full: Bytes, h: Handlers)
    requires IsTail(path) && |path| > 0 && path[0] == COLON && np == Colons(path) > 0 && WildNode(np, path, full, h).Conflict?
    ensures BadName(path)
    decreases |path|, 0
  {
    var e := SegEnd(path);
    assert path[0..] == path;
    if e < 2 || !NoWild(path, 1, e) {
      assert NoNameAt(path, 0);
    } else {
      assert e == |path| ==> Colons(path[e..]) == 0;
      WildcardSplit(path);
      if e < |path| {
        InsertRefused(EmptyNode.(maxParams := np - 1, priority := 1, fullPath := full), np - 1, path[e..], full, h);
        NoNameLater(path, e);
      }
    }
  }

  /** Why a route is refused at a node: a wildcard has no name, or a pattern stored there clashes with it. */
  ghost predicate Refused(n: Node, path: Bytes) {
    BadName(path) || exists pat :: Holds(n, pat) && Clash(pat, path)
  }

  /** What is stored below a child is stored below its parent. */
  lemma LiftClash(n: Node, k: nat, pat: Bytes, t: Bytes)
    requires Sound(n) && (IsOrdinary(n) || n.nType.ParamNode?) && k < |n.children|
    requires Holds(n.children[k], pat) && Clash(pat, t)
    requires |t| > 0 && t[0] != STAR && (n.nType.ParamNode? ==> t[0] == SLASH)
    ensures Refused(n, n.path + t)
  {
    LiftHolds(n, k, pat);
    ClashHere(n, pat, t);
    assert Holds(n, n.path + pat) && Clash(n.path + pat, n.path + t);
  }

  lemma LiftHolds(n: Node, k: nat, pat: Bytes)
    requires Sound(n) && (IsOrdinary(n) || n.nType.ParamNode?) && k < |n.children| && Holds(n.children[k], pat)
    ensures Holds(n, n.path + pat) && |pat| > 0 && pat[0] != STAR && (n.nType.ParamNode? ==> pat[0] == SLASH)
  {
    if n.nType.ParamNode? {
      LiftParam(n, k, pat);
    } else if n.wildChild {
      LiftWild(n, k, pat);
    } else {
      LiftIndexed(n, k, pat);
    }
  }

  lemma LiftParam(n: Node, k: nat, pat: Bytes)
    requires Sound(n) && n.nType.ParamNode? && k < |n.children| && Holds(n.children[k], pat)
    ensures Holds(n, n.path + pat) && |pat| > 0 && pat[0] == SLASH
  {
    ChildSound(n, k);
    HeadOf(n.children[0], SLASH, pat);
    HoldsOver(n, n.children[0], pat);
  }

  lemma LiftWild(n: Node, k: nat, pat: Bytes)
    requires Sound(n) && IsOrdinary(n) && n.wildChild && k < |n.children| && Holds(n.children[k], pat)
    ensures Holds(n, n.path + pat) && |pat| > 0 && pat[0] == COLON
  {
    ChildSound(n, k);
    HeadWild(n.children[0], pat);
    HoldsOver(n, n.children[0], pat);
  }

  lemma LiftIndexed(n: Node, k: nat, pat: Bytes)
    requires IndexedNode(n) && k < |n.children| && Holds(n.children[k], pat)
    ensures Holds(n, n.path + pat) && |pat| > 0 && pat[0] != STAR
  {
    ChildSound(n, k);
    HeadOf(n.children[k], n.indices[k], pat);
    IndexAt(n, k);
    HoldsAbove(n, k, n.children[k], pat);
  }

  lemma IndexAt(n: Node, k: nat)
    requires IndexedNode(n) && k < |n.indices|
    ensures Find(n.indices, n.indices[k]) == k
  {
    assert WellFormed(n);
    FindAt(n.indices, k);
  }

  lemma HoldsOver(n: Node, c: Node, pat: Bytes)
    requires n.children == [c] && |pat| > 0 && Holds(c, pat)
    requires if n.nType.ParamNode? then pat[0] == SLASH else n.wildChild
    ensures Holds(n, n.path + pat)
  {
    assert (n.path + pat)[|n.path|..] == pat;
  }

  lemma HoldsAbove(n: Node, k: nat, c: Node, pat: Bytes)
    requires !n.nType.ParamNode? && !n.wildChild && |pat| > 0 && k == Find(n.indices, pat[0]) < |n.indices| && k < |n.children|
    requires c == n.children[k] && Holds(c, pat)
    ensures Holds(n, n.path + pat)
  {
    assert (n.path + pat)[|n.path|..] == pat;
  }

  lemma LiftRefused(n: Node, k: nat, t: Bytes)
    requires WellFormed(n) && (IsOrdinary(n) || n.nType.ParamNode?) && k < |n.children| && Refused(n.children[k], t)
    requires |t| > 0 && t[0] != STAR && (n.nType.ParamNode? ==> t[0] == SLASH)
    ensures Refused(n, n.path + t)
  {
    if BadName(t) {
      assert (n.path + t)[|n.path|..] == t;
      NoNameLater(n.path + t, |n.path|);
    } else {
      var pat :| Holds(n.children[k], pat) && Clash(pat, t);
      LiftClash(n, k, pat, t);
    }
  }

  lemma BadBelow(n: Node, t: Bytes)
    requires BadName(t)
    ensures Refused(n, n.path + t)
  {
    assert (n.path + t)[|n.path|..] == t;
    NoNameLater(n.path + t, |n.path|);
  }

  /** Priorities and counts do not matter for what is stored. */
  lemma CountedRefused(c: Node, priority: nat, maxParams: nat, t: Bytes)
    requires Refused(c.(priority := priority, maxParams := maxParams), t)
    ensures Refused(c, t)
  {
    var c1 := c.(priority := priority, maxParams := maxParams);
    if !BadName(t) {
      var pat :| Holds(c1, pat) && Clash(pat, t);
      assert Holds(c, pat);
    }
  }

  lemma SameRefused(n: Node, n1: Node, path: Bytes)
    requires WellFormed(n) && WellFormed(n1) && !n.nType.CatchAll? && !n1.nType.CatchAll? && SameGet(n, n1) && Refused(n1, path)
    ensures Refused(n, path)
  {
    if !BadName(path) {
      var pat :| Holds(n1, pat) && Clash(pat, path);
      HoldsIsGet(n1, pat);
      HoldsIsGet(n, pat);
      assert Get(n1, pat) == Get(n, pat);
    }
  }

  lemma {:induction false} WalkRefused(n: Node, np: nat, path: Bytes, full: Bytes, done: nat, h: Handlers)
    requires Entered(n, np, path) && Walk(n, np, path, full, done, h).Conflict?
    ensures Refused(n, path)
    decreases |path|, 1
  {
    var i, n1 := WalkTurns(n, np, path, full, done, h);
    TurnRefused(n, i, n1, np, path, full, done, h);
  }

  lemma {:induction false} TurnRefused(n: Node, i: nat, n1: Node, np: nat, path: Bytes, full: Bytes, done: nat, h: Handlers)
    requires Entered(n, np, path) && Turns(n, i, n1, np, path, full, done, h, Conflict)
    ensures Refused(n, path)
    decreases |path|, 0
  {
    ArriveOk(n, np, path, full, done, i, n1);
    assert path == path[..i] + path[i..];
    if i == |path| {
      assert path[..i] == path;
      LeafRefused(n1, path);
    } else {
      AfterCommon(n, np, path, i);
      BelowRefused(n1, np, path[i..], full, done + i, h);
    }
    ArrivedRefused(n, n1, np, path, path[..i]);
  }

  lemma LeafRefused(n: Node, path: Bytes)
    requires n.path == path && n.handlers.Some?
    ensures Refused(n, path)
  {
    ClashSelf(path);
    assert Holds(n, path);
  }

  lemma ArrivedRefused(n: Node, n1: Node, np: nat, path: Bytes, s: Bytes)
    requires Entered(n, np, path) && Sound(n1) && n1.nType == n.nType && Arrived(n, n1, s) && Refused(n1, path)
    ensures Refused(n, path)
  {
    assert CanEnter(n, np, path);
    assert SameGet(n, n1) && WellFormed(n) && WellFormed(n1);
    SameRefused(n, n1, path);
  }

  lemma {:induction false} BelowRefused(n: Node, np: nat, t: Bytes, full: Bytes, done: nat, h: Handlers)
    requires Sound(n) && (n.nType.ParamNode? || IsOrdinary(n)) && IsTail(t) && |t| > 0 && np == Colons(t)
    requires n.nType.ParamNode? ==> t[0] == SLASH
    requires Below(n, np, t, full, done, h).Conflict?
    ensures Refused(n, n.path + t)
    decreases |t|, 4
  {
    assert WellFormed(n);
    if t[0] == STAR {
      StarHasReason(n, t);
    } else if n.wildChild {
      BelowWildRefused(n, np, t, full, done, h);
    } else if n.nType.ParamNode? && |n.children| == 1 {
      ChildRefused(n, 0, np, t, full, done, h);
    } else {
      var k := Find(n.indices, t[0]);
      if k < |n.indices| {
        BelowChildRefused(n, k, np, t, full, done, h);
      } else if t[0] != COLON {
        BelowNewRefused(n, np, t, full, h);
      } else {
        BelowColonRefused(n, np, t, full, h);
      }
    }
  }

  /** A catch-all right below a node: a pattern is stored behind the same slash, or there is no slash. */
  lemma StarHasReason(n: Node, t: Bytes)
    requires WellFormed(n) && IsOrdinary(n) && IsStar(t)
    ensures Refused(n, n.path + t)
  {
    var k := |n.path|;
    if n.path[k - 1] == SLASH {
      var pat := Inhabited(n);
      Rejoin(n.path, pat);
      ClashStar(n.path, pat[k..], t);
    } else {
      assert (n.path + t)[k] == STAR && (n.path + t)[k - 1] != SLASH;
      assert NoNameAt(n.path + t, k);
    }
  }

  /** A child that is entered by the path's first byte. */
  lemma {:induction false} ChildRefused(n: Node, k: nat, np: nat, t: Bytes, full: Bytes, done: nat, h: Handlers)
    requires WellFormed(n) && (n.nType.ParamNode? || IsOrdinary(n)) && k < |n.children| && IsTail(t) && |t| > 0 && np == Colons(t)
    requires Enters(n.children[k], t[0]) && (n.nType.ParamNode? ==> t[0] == SLASH)
    requires Walk(n.children[k].(priority := n.children[k].priority + 1), np, t, full, done, h).Conflict?
    ensures Refused(n, n.path + t)
    decreases |t|, 2
  {
    var c := n.children[k];
    assert WellFormed(c);
    if |c.path| == 0 {
      var pat := Inhabited(c);
      CatchHolds(c, pat);
      LiftClash(n, k, pat, t);
    } else {
      var c1 := c.(priority := c.priority + 1);
      Counted(c, c1.priority, c1.maxParams);
      assert CanEnter(c1, np, t);
      WalkRefused(c1, np, t, full, done, h);
      CountedRefused(c, c1.priority, c1.maxParams, t);
      LiftRefused(n, k, t);
    }
  }

  lemma {:induction false} BelowWildRefused(n: Node, np: nat, t: Bytes, full: Bytes, done: nat, h: Handlers)
    requires WellFormed(n) && n.wildChild && IsOrdinary(n) && IsTail(t) && |t| > 0 && t[0] != STAR && np == Colons(t)
    requires BelowWild(n, np, t, full, done, h).Conflict?
    ensures Refused(n, n.path + t)
    decreases |t|, 2
  {
    var m := n.children[0];
    assert WellFormed(m);
    if np > 0 && SameWildcard(m.path, t) {
      var m1 := m.(priority := m.priority + 1, maxParams := Max(m.maxParams, np));
      Counted(m, m1.priority, m1.maxParams);
      assert CanEnter(m1, np - 1, t);
      WalkRefused(m1, np - 1, t, full, done, h);
      CountedRefused(m, m1.priority, m1.maxParams, t);
      LiftRefused(n, 0, t);
    } else {
      var pat := Inhabited(m);
      OtherWildcard(m, pat, np, t);
      LiftClash(n, 0, pat, t);
    }
  }

  lemma OtherWildcard(m: Node, pat: Bytes, np: nat, t: Bytes)
    requires WellFormed(m) && m.nType.ParamNode? && Holds(m, pat) && IsTail(t) && |t| > 0 && np == Colons(t)
    requires np == 0 || !SameWildcard(m.path, t)
    ensures Clash(pat, t)
  {
    if t[0] == COLON {
      SegEndAt(m.path, pat);
      SegmentIsWildcard(m.path, t);
      assert [COLON] + m.path[1..] == m.path;
      assert pat[..SegEnd(pat)] == m.path;
    }
  }

  lemma {:induction false} BelowChildRefused(n: Node, k: nat, np: nat, t: Bytes, full: Bytes, done: nat, h: Handlers)
    requires WellFormed(n) && !n.wildChild && IsOrdinary(n) && k < |n.children| == |n.indices|
    requires IsTail(t) && |t| > 0 && np == Colons(t) && t[0] == n.indices[k]
    requires BelowChild(n, k, np, t, full, done, h).Conflict?
    ensures Refused(n, n.path + t)
    decreases |t|, 3
  {
    var c := n.children[k];
    var c1 := c.(priority := c.priority + 1);
    ChildPlaced(n, k, NewPos(n.children, k, c1.priority), c1, c1);
    assert Enters(c, n.indices[k]);
    ChildRefused(n, k, np, t, full, done, h);
  }

  lemma BelowNewRefused(n: Node, np: nat, t: Bytes, full: Bytes, h: Handlers)
    requires IsTail(t) && |t| > 0 && !IsWildByte(t[0]) && np == Colons(t) && |n.children| == |n.indices| && BelowNew(n, np, t, full, h).Conflict?
    ensures Refused(n, n.path + t)
  {
    var k := |n.children|;
    var ch := n.children + [NewChild(np, full)];
    var c1 := NewChild(np, full).(priority := 1);
    assert ch[k] == NewChild(np, full);
    MovedUpdate(ch[k := c1], k, NewPos(ch, k, 1), c1);
    InsertRefused(c1, np, t, full, h);
    BadBelow(n, t);
  }

  lemma BelowColonRefused(n: Node, np: nat, t: Bytes, full: Bytes, h: Handlers)
    requires WellFormed(n) && !n.wildChild && IsOrdinary(n)
    requires IsTail(t) && |t| > 0 && t[0] == COLON && np == Colons(t) && InsertChild(n, np, t, full, h).Conflict?
    ensures Refused(n, n.path + t)
  {
    if |n.children| > 0 {
      assert WellFormed(n.children[0]) && Enters(n.children[0], n.indices[0]);
      var pat := Inhabited(n.children[0]);
      HeadOf(n.children[0], n.indices[0], pat);
      LiftClash(n, 0, pat, t);
    } else {
      InsertRefused(n, np, t, full, h);
      BadBelow(n, t);
    }
  }

  // ----- Exactly when a route is refused -----

  lemma EmptyRefuses(root: Node, path: Bytes, h: Handlers)
    requires IsEmpty(root) && Addable(path) && AddRoute(root, path, h).Conflict?
    ensures BadName(path)
  {
    RouteIsTail(path);
    InsertRefused(root.(priority := root.priority + 1), Colons(path), path, path, h);
  }

  lemma TreeRefuses(root: Node, path: Bytes, h: Handlers)
    requires IsTree(root) && !IsEmpty(root) && Addable(path) && AddRoute(root, path, h).Conflict?
    ensures Refused(root, path)
  {
    RouteIsTail(path);
    var n := root.(priority := root.priority + 1);
    Counted(root, n.priority, n.maxParams);
    assert WellFormed(root);
    if IsCatchTop(root) {
      var pat := Inhabited(root);
      CatchHolds(root, pat);
    } else {
      assert CanEnter(n, Colons(path), path);
      WalkRefused(n, Colons(path), path, path, 0, h);
      CountedRefused(root, n.priority, n.maxParams, path);
    }
  }

  ghost predicate ClashesWithOne(routes: seq<Route>, path: Bytes) {
    exists i :: 0 <= i < |routes| && Clash(routes[i].path, path)
  }

  /** A route is refused if and only if one of its wildcards has no name or it clashes with a registered route. */
  lemma RefusedExactly(routes: seq<Route>, r: Route)
    requires AllAddable(routes) && AddAll(routes).Ok? && Addable(r.path)
    ensures AddAll(routes + [r]).Conflict? <==> BadName(r.path) || ClashesWithOne(routes, r.path)
  {
    var more := routes + [r];
    assert more[..|routes|] == routes;
    assert AddAll(more) == AddRoute(AddAll(routes).n, r.path, r.handlers);
    if AddAll(more).Conflict? {
      RefusedHasReason(routes, r);
    } else {
      AcceptedHasNone(routes, r);
    }
  }

  lemma RefusedHasReason(routes: seq<Route>, r: Route)
    requires AllAddable(routes) && AddAll(routes).Ok? && Addable(r.path)
    requires AddRoute(AddAll(routes).n, r.path, r.handlers).Conflict?
    ensures BadName(r.path) || ClashesWithOne(routes, r.path)
  {
    var root := AddAll(routes).n;
    if |routes| == 0 {
      EmptyRefuses(root, r.path, r.handlers);
    } else {
      TreeIsRoutes(routes, []);
      NotEmpty(routes);
      TreeRefuses(root, r.path, r.handlers);
      if !BadName(r.path) {
        var pat :| Holds(root, pat) && Clash(pat, r.path);
        HoldsIffRegistered(routes, pat);
      }
    }
  }

  lemma AcceptedHasNone(routes: seq<Route>, r: Route)
    requires AllAddable(routes) && AddAll(routes).Ok? && Addable(r.path) && AddAll(routes + [r]).Ok?
    ensures !BadName(r.path) && !ClashesWithOne(routes, r.path)
  {
    var more := routes + [r];
    var root := AddAll(more).n;
    RouteIsTail(r.path);
    HoldsIffRegistered(more, r.path);
    assert more[|routes|] == r;
    if i: nat :| i < |r.path| && NoNameAt(r.path, i) {
      GoodNames(root, r.path, i);
    }
    if i :| 0 <= i < |routes| && Clash(routes[i].path, r.path) {
      assert more[i] == routes[i];
      HoldsIffRegistered(more, routes[i].path);
      if routes[i].path == r.path {
        TreeIsRoutes(more, r.path);
        assert AtMostOne(more, r.path);
        MatchSelf(r.path);
      } else {
        NoClash(root, routes[i].path, r.path);
      }
    }
  }
}
