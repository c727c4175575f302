/** The composer: reads a document's events from the parser, one event of lookahead,
    and builds the node tree.

    The Go code reports failures by panicking; here they are results.  The panic on
    an unknown event is `UnknownEvent`, which `ParseKind` returns for an event no node
    starts with; `Parse` shows that the checker leaves no such event to it. */
module YamlComposer {
  import opened Prelude
  import opened YamlEvents

  datatype Kind = DocumentNode | MappingNode | SequenceNode | ScalarNode | AliasNode

  datatype Node = Node(
    kind: Kind,
    line: int,
    column: int,
    tag: Bytes,
    value: Bytes,
    implicit: bool,
    children: seq<Node>)

  datatype Failure = ParserFailed | PastEnd | Unexpected | UnknownAnchor(name: Bytes) | UnknownEvent

  datatype Result<+T> = Ok(value: T) | Err(failure: Failure)

  // ----- What a tree of events is composed into -----

  function NodeAt(kind: Kind, e: Event): Node
    requires !e.NoEvent?
  {
    Node(kind, e.startMark.line, e.startMark.column, [], [], false, [])
  }

  function ScalarOf(e: Event): Node
    requires e.Scalar?
  {
    NodeAt(ScalarNode, e).(value := e.value, tag := e.tag, implicit := e.implicit)
  }

  function AliasOf(e: Event): Node
    requires e.Alias?
  {
    NodeAt(AliasNode, e).(value := e.name)
  }

  ghost function Erase(t: Tree): Node
    requires TreeOk(t)
  {
    match t
    case Leaf(e) => if e.Scalar? then ScalarOf(e) else AliasOf(e)
    case SeqTree(s, items, _) =>
      NodeAt(SequenceNode, s).(children := seq(|items|, i requires 0 <= i < |items| => Erase(items[i])))
    case MapTree(s, items, _) =>
      NodeAt(MappingNode, s).(children := seq(|items|, i requires 0 <= i < |items| => Erase(items[i])))
  }

  ghost predicate Erased(children: seq<Node>, items: seq<Tree>) {
    TreesOk(items) && |children| == |items| && forall i | 0 <= i < |items| :: children[i] == Erase(items[i])
  }

  lemma ErasedSeq(s: Event, items: seq<Tree>, e: Event, children: seq<Node>)
    requires s.SequenceStart? && e.SequenceEnd? && Erased(children, items)
    ensures TreeOk(SeqTree(s, items, e)) && Erase(SeqTree(s, items, e)) == NodeAt(SequenceNode, s).(children := children)
  {
    var t := SeqTree(s, items, e);
    assert Erase(t).children == children;
  }

  lemma ErasedMap(s: Event, items: seq<Tree>, e: Event, children: seq<Node>)
    requires s.MappingStart? && e.MappingEnd? && Erased(children, items) && |items| % 2 == 0
    ensures TreeOk(MapTree(s, items, e)) && Erase(MapTree(s, items, e)) == NodeAt(MappingNode, s).(children := children)
  {
    var t := MapTree(s, items, e);
    assert Erase(t).children == children;
  }

  lemma {:induction false} FlattenSnoc(ts: seq<Tree>, t: Tree)
    ensures FlattenAll(ts + [t]) == FlattenAll(ts) + Flatten(t)
  {
    if ts == [] {
      assert [t][1..] == [];
      assert [] + [t] == [t];
    } else {
      assert (ts + [t])[1..] == ts[1..] + [t];
      FlattenSnoc(ts[1..], t);
    }
  }

  datatype EventType =
    | StreamStartType | DocumentStartType | DocumentEndType | AliasType | ScalarType
    | SequenceStartType | SequenceEndType | MappingStartType | MappingEndType

  predicate HasType(e: Event, t: EventType) {
    match t
    case StreamStartType => e.StreamStart?
    case DocumentStartType => e.DocumentStart?
    case DocumentEndType => e.DocumentEnd?
    case AliasType => e.Alias?
    case ScalarType => e.Scalar?
    case SequenceStartType => e.SequenceStart?
    case SequenceEndType => e.SequenceEnd?
    case MappingStartType => e.MappingStart?
    case MappingEndType => e.MappingEnd?
  }

  // ----- Anchors -----

  function AnchorOf(e: Event): Option<Bytes> {
    match e
    case Scalar(_, _, anchor, _, _, _, _, _) => anchor
    case SequenceStart(_, _, anchor, _, _, _) => anchor
    case MappingStart(_, _, anchor, _, _, _) => anchor
    case _ => None
  }

  /** The anchors declared since the latest document start. */
  function Declared(es: seq<Event>): set<Bytes> {
    if |es| == 0 then {}
    else
      var e := es[|es| - 1];
      if e.DocumentStart? then {}
      else if AnchorOf(e).Some? then Declared(es[..|es| - 1]) + {AnchorOf(e).value}
      else Declared(es[..|es| - 1])
  }

  lemma DeclaredSnoc(es: seq<Event>, e: Event)
    ensures Declared(es + [e]) ==
            if e.DocumentStart? then {}
            else if AnchorOf(e).Some? then Declared(es) + {AnchorOf(e).value}
            else Declared(es)
  {
    assert (es + [e])[..|es|] == es;
  }

  /** Every alias among the first `n` events names an anchor declared before it in its document. */
  ghost predicate Known(es: seq<Event>, n: nat) {
    forall k | 0 <= k < n && k < |es| && es[k].Alias? :: es[k].name in Declared(es[..k])
  }

  /** `Known`, met by a proof only where it asks for it. */
  ghost predicate KnownTo(es: seq<Event>, n: nat) {
    forall m: nat | m == n :: Known(es, m)
  }

  lemma KnownMore(es: seq<Event>, n: nat)
    requires n < |es| && KnownTo(es, n) && (es[n].Alias? ==> es[n].name in Declared(es[..n]))
    ensures KnownTo(es, n + 1)
  {
    assert Known(es, n);
    assert Known(es, n + 1);
  }

  /** A node may start with this event. */
  predicate StartsNode(e: Event) {
    e.Scalar? || e.Alias? || e.SequenceStart? || e.MappingStart?
  }

  /** What the checker allows next, where a node or nothing else is wanted. */
  lemma NextEvent(below: Stack, top: Frame, e: Event)
    requires StepEvent(Open(Push(below, top)), e) != Broken
    ensures top.DocNode? || top.MapValue? ==> StartsNode(e)
    ensures top.InSeq? ==> StartsNode(e) || e.SequenceEnd?
    ensures top.MapKey? ==> StartsNode(e) || e.MappingEnd?
    ensures top.DocDone? ==> e.DocumentEnd?
    ensures top.InStream? ==> e.DocumentStart? || e.StreamEnd?
  {
  }

  lemma {:induction false} PrefixNotBroken(es: seq<Event>, k: nat)
    requires k <= |es| && Run(es) != Broken
    ensures Run(es[..k]) != Broken
    decreases |es|
  {
    if k < |es| {
      var init := es[..|es| - 1];
      assert init[..k] == es[..k];
      PrefixNotBroken(init, k);
    } else {
      assert es[..k] == es;
    }
  }

  lemma TwiceIsEven(pairs: nat, n: nat)
    requires n == 2 * pairs
    ensures n % 2 == 0
  {
  }

  lemma NextNotBroken(es: seq<Event>, k: nat)
    requires k < |es| && Run(es) != Broken
    ensures !es[k].NoEvent? && StepEvent(Run(es[..k]), es[k]) == Run(es[..k + 1]) != Broken
  {
    PrefixNotBroken(es, k + 1);
    var p, q := es[..k], es[..k + 1];
    assert q == p + [es[k]];
    RunSnoc(p, es[k]);
    NoEventBreaks(Run(p), es[k]);
  }

  lemma NoEventBreaks(s: Shape, e: Event)
    ensures e.NoEvent? ==> StepEvent(s, e) == Broken
  {
  }

  /** `n` is what the events from `from` up to `to` describe, no more and no fewer.  This and the next
      are stated through a bound variable, so that a proof meets their witnesses only where it asks. */
  ghost predicate Composes(events: seq<Event>, from: nat, to: nat, n: Node) {
    forall k: nat | k == to :: IsNode(events, from, k, n)
  }

  ghost predicate IsNode(events: seq<Event>, from: nat, to: nat, n: Node) {
    from <= to <= |events| && exists t :: TreeOk(t) && n == Erase(t) && events[from..to] == Flatten(t)
  }

  /** The events from `from` up to `to` open a collection and describe the nodes `children`. */
  ghost predicate Collects(events: seq<Event>, from: nat, to: nat, children: seq<Node>) {
    forall k: nat | k == to :: AreNodes(events, from, k, children)
  }

  ghost predicate AreNodes(events: seq<Event>, from: nat, to: nat, children: seq<Node>) {
    from < to <= |events| && exists items :: Erased(children, items) && events[from..to] == [events[from]] + FlattenAll(items)
  }

  /** `n` is the document that the events from `from` up to `to` are. */
  ghost predicate ComposesDocument(events: seq<Event>, from: nat, to: nat, n: Node)
    requires from <= to <= |events|
  {
    exists d: DocTree ::
      && d.start.DocumentStart? && TreeOk(d.root) && d.end.DocumentEnd?
      && n == NodeAt(DocumentNode, d.start).(children := [Erase(d.root)])
      && events[from..to] == [d.start] + Flatten(d.root) + [d.end]
  }

  lemma Bracketed(events: seq<Event>, from: nat, to: nat)
    requires from < to < |events|
    ensures events[from..to + 1] == [events[from]] + events[from + 1..to] + [events[to]]
  {
  }

  lemma DocumentComposed(events: seq<Event>, from: nat, to: nat, n: Node)
    requires from < to < |events| && events[from].DocumentStart? && events[to].DocumentEnd?
    requires |n.children| == 1 && Composes(events, from + 1, to, n.children[0])
    requires n == NodeAt(DocumentNode, events[from]).(children := n.children)
    ensures ComposesDocument(events, from, to + 1, n)
  {
    assert IsNode(events, from + 1, to, n.children[0]);
    var t :| TreeOk(t) && n.children[0] == Erase(t) && events[from + 1..to] == Flatten(t);
    var d := DocTree(events[from], t, events[to]);
    Bracketed(events, from, to);
    assert n.children == [Erase(d.root)];
    assert d.start.DocumentStart? && TreeOk(d.root) && d.end.DocumentEnd?;
  }

  lemma ComposesLeaf(events: seq<Event>, from: nat)
    requires from < |events|
    ensures events[from].Scalar? ==> Composes(events, from, from + 1, ScalarOf(events[from]))
    ensures events[from].Alias? ==> Composes(events, from, from + 1, AliasOf(events[from]))
  {
    var t := Leaf(events[from]);
    assert events[from..from + 1] == Flatten(t);
    if events[from].Scalar? || events[from].Alias? {
      assert TreeOk(t) && Erase(t) == if events[from].Scalar? then ScalarOf(events[from]) else AliasOf(events[from]);
      assert IsNode(events, from, from + 1, Erase(t));
    }
  }

  lemma CollectsNone(events: seq<Event>, from: nat)
    requires from < |events|
    ensures Collects(events, from, from + 1, [])
  {
    assert Erased([], []) && events[from..from + 1] == [events[from]] + FlattenAll([]);
    assert AreNodes(events, from, from + 1, []);
  }

  lemma CollectsOneMore(events: seq<Event>, from: nat, mid: nat, to: nat, children: seq<Node>, n: Node)
    requires Collects(events, from, mid, children) && Composes(events, mid, to, n)
    ensures Collects(events, from, to, children + [n])
  {
    assert AreNodes(events, from, mid, children) && IsNode(events, mid, to, n);
    var items :| Erased(children, items) && events[from..mid] == [events[from]] + FlattenAll(items);
    var t :| TreeOk(t) && n == Erase(t) && events[mid..to] == Flatten(t);
    FlattenSnoc(items, t);
    ErasedSnoc(children, items, n, t);
    TwoRanges(events, from, mid, to);
    AddRight([events[from]], FlattenAll(items), Flatten(t));
    assert AreNodes(events, from, to, children + [n]);
  }

  lemma ErasedSnoc(children: seq<Node>, items: seq<Tree>, n: Node, t: Tree)
    requires Erased(children, items) && TreeOk(t) && n == Erase(t)
    ensures Erased(children + [n], items + [t])
  {
  }

  lemma TwoRanges(events: seq<Event>, from: nat, mid: nat, to: nat)
    requires from <= mid <= to <= |events|
    ensures events[from..to] == events[from..mid] + events[mid..to]
  {
  }

  lemma AddRight(a: seq<Event>, b: seq<Event>, c: seq<Event>)
    ensures a + b + c == a + (b + c)
  {
  }

  lemma ComposesSequence(events: seq<Event>, from: nat, to: nat, n: Node)
    requires from < to < |events| && events[from].SequenceStart? && events[to].SequenceEnd?
    requires Collects(events, from, to, n.children) && n == NodeAt(SequenceNode, events[from]).(children := n.children)
    ensures Composes(events, from, to + 1, n)
  {
    assert AreNodes(events, from, to, n.children);
    var items :| Erased(n.children, items) && events[from..to] == [events[from]] + FlattenAll(items);
    ErasedSeq(events[from], items, events[to], n.children);
    assert events[from..to + 1] == events[from..to] + [events[to]];
    assert events[from..to + 1] == Flatten(SeqTree(events[from], items, events[to]));
    assert IsNode(events, from, to + 1, n);
  }

  lemma ComposesMapping(events: seq<Event>, from: nat, to: nat, n: Node)
    requires from < to < |events| && events[from].MappingStart? && events[to].MappingEnd?
    requires Collects(events, from, to, n.children) && n == NodeAt(MappingNode, events[from]).(children := n.children) && |n.children| % 2 == 0
    ensures Composes(events, from, to + 1, n)
  {
    assert AreNodes(events, from, to, n.children);
    var items :| Erased(n.children, items) && events[from..to] == [events[from]] + FlattenAll(items);
    ErasedMap(events[from], items, events[to], n.children);
    assert events[from..to + 1] == events[from..to] + [events[to]];
    assert events[from..to + 1] == Flatten(MapTree(events[from], items, events[to]));
    assert IsNode(events, from, to + 1, n);
  }

  // ----- All documents -----

  ghost function EraseDoc(d: DocTree): Node
    requires !d.start.NoEvent? && TreeOk(d.root)
  {
    NodeAt(DocumentNode, d.start).(children := [Erase(d.root)])
  }

  /** The nodes are those of the documents, one for one. */
  ghost predicate ErasedDocs(nodes: seq<Node>, ds: seq<DocTree>) {
    DocsOk(ds) && |nodes| == |ds| && forall i | 0 <= i < |ds| :: nodes[i] == EraseDoc(ds[i])
  }

  /** After the start of the stream, the events before `to` are exactly the documents `nodes`. */
  ghost predicate Documents(events: seq<Event>, to: nat, nodes: seq<Node>) {
    forall k: nat | k == to :: AreDocuments(events, k, nodes)
  }

  ghost predicate AreDocuments(events: seq<Event>, to: nat, nodes: seq<Node>) {
    1 <= to <= |events| && exists ds :: ErasedDocs(nodes, ds) && events[1..to] == FlattenDocs(ds)
  }

  lemma {:induction false} FlattenDocsSnoc(ds: seq<DocTree>, d: DocTree)
    ensures FlattenDocs(ds + [d]) == FlattenDocs(ds) + ([d.start] + Flatten(d.root) + [d.end])
    decreases |ds|
  {
    if ds == [] {
      assert [d][1..] == [] && [] + [d] == [d];
    } else {
      assert (ds + [d])[0] == ds[0] && (ds + [d])[1..] == ds[1..] + [d];
      FlattenDocsSnoc(ds[1..], d);
      AddRight([ds[0].start] + Flatten(ds[0].root) + [ds[0].end], FlattenDocs(ds[1..]), [d.start] + Flatten(d.root) + [d.end]);
    }
  }

  lemma NoDocuments(events: seq<Event>)
    requires |events| >= 1
    ensures Documents(events, 1, [])
  {
    assert ErasedDocs([], []) && events[1..1] == FlattenDocs([]);
    assert AreDocuments(events, 1, []);
  }

  lemma OneMoreDocument(events: seq<Event>, mid: nat, to: nat, nodes: seq<Node>, n: Node)
    requires Documents(events, mid, nodes) && mid <= to <= |events| && ComposesDocument(events, mid, to, n)
    ensures Documents(events, to, nodes + [n])
  {
    assert AreDocuments(events, mid, nodes);
    var ds :| ErasedDocs(nodes, ds) && events[1..mid] == FlattenDocs(ds);
    OneMoreDoc(events, mid, to, nodes, n, ds);
  }

  lemma OneMoreDoc(events: seq<Event>, mid: nat, to: nat, nodes: seq<Node>, n: Node, ds: seq<DocTree>)
    requires 1 <= mid <= to <= |events| && ComposesDocument(events, mid, to, n)
    requires ErasedDocs(nodes, ds) && events[1..mid] == FlattenDocs(ds)
    ensures Documents(events, to, nodes + [n])
  {
    var d: DocTree :| d.start.DocumentStart? && TreeOk(d.root) && d.end.DocumentEnd?
      && n == NodeAt(DocumentNode, d.start).(children := [Erase(d.root)])
      && events[mid..to] == [d.start] + Flatten(d.root) + [d.end];
    FlattenDocsSnoc(ds, d);
    TwoRanges(events, 1, mid, to);
    ErasedDocsSnoc(nodes, ds, n, d);
    assert AreDocuments(events, to, nodes + [n]);
  }

  lemma ErasedDocsSnoc(nodes: seq<Node>, ds: seq<DocTree>, n: Node, d: DocTree)
    requires ErasedDocs(nodes, ds) && d.start.DocumentStart? && TreeOk(d.root) && d.end.DocumentEnd? && n == EraseDoc(d)
    ensures ErasedDocs(nodes + [n], ds + [d])
  {
  }

  /** The whole stream was composed: its documents, and every alias known. */
  ghost predicate Loads(events: seq<Event>, nodes: seq<Node>) {
    && Known(events, |events|)
    && exists ss, ds, se :: IsStream(events, ss, ds, se) && ErasedDocs(nodes, ds)
  }

  lemma StartsStream(events: seq<Event>)
    requires |events| > 0 && Run(events) != Broken
    ensures events[0].StreamStart?
  {
    NextNotBroken(events, 0);
    assert events[..0] == [];
  }

  lemma Opening(events: seq<Event>)
    requires Run(events) != Broken
    ensures |events| == 0 ==> Run(events) != Closed
    ensures |events| > 0 ==> HasType(events[0], StreamStartType) && !events[0].StreamEnd? && Run(events[..1]) == Open(STREAM)
  {
    if |events| > 0 {
      StartsStream(events);
      NextNotBroken(events, 0);
      assert events[..0] == [];
    }
  }

  lemma LastIsEnd(events: seq<Event>, t: nat)
    requires t < |events| && Run(events) != Broken && Run(events[..t]) == Open(STREAM) && events[t].StreamEnd?
    ensures |events| == t + 1
  {
    NextNotBroken(events, t);
    if t + 1 < |events| {
      NothingAfter(events, t + 1);
    }
  }

  lemma NothingAfter(events: seq<Event>, t: nat)
    requires t < |events| && Run(events[..t]) == Closed
    ensures Run(events) == Broken
  {
    if Run(events) != Broken {
      NextNotBroken(events, t);
    }
  }

  lemma AllLoaded(events: seq<Event>, t: nat, nodes: seq<Node>)
    requires t < |events| && Run(events) != Broken && Run(events[..t]) == Open(STREAM) && events[t].StreamEnd?
    requires Documents(events, t, nodes) && KnownTo(events, t) && events[0].StreamStart?
    ensures Loads(events, nodes)
  {
    LastIsEnd(events, t);
    KnownMore(events, t);
    assert Known(events, |events|);
    assert AreDocuments(events, t, nodes);
    var ds :| ErasedDocs(nodes, ds) && events[1..t] == FlattenDocs(ds);
    WholeStream(events, t, ds);
  }

  lemma WholeStream(events: seq<Event>, t: nat, ds: seq<DocTree>)
    requires 1 <= t && |events| == t + 1 && events[0].StreamStart? && events[t].StreamEnd?
    requires DocsOk(ds) && events[1..t] == FlattenDocs(ds)
    ensures IsStream(events, events[0], ds, events[t])
  {
    assert events == [events[0]] + events[1..t] + [events[t]];
  }

  // ----- Brackets that stay open -----

  /** `outer` is open with further brackets inside. */
  ghost predicate Higher(st: Stack, outer: Stack) {
    st.Push? && (st.below == outer || Higher(st.below, outer))
  }

  ghost predicate InsideOf(s: Shape, outer: Stack) {
    s.Open? && Higher(s.stack, outer)
  }

  /** After each event taken from `from` on, up to but without `to`, a bracket inside `outer` is open. */
  ghost predicate Inner(events: seq<Event>, from: nat, to: nat, outer: Stack) {
    forall u | u == events :: StaysInside(u, from, to, outer)
  }

  ghost predicate StaysInside(events: seq<Event>, from: nat, to: nat, outer: Stack) {
    forall k | from < k < to && k <= |events| :: InsideOf(Run(events[..k]), outer)
  }

  lemma InnerNone(events: seq<Event>, from: nat, to: nat, outer: Stack)
    requires to <= from + 1
    ensures Inner(events, from, to, outer)
  {
    assert StaysInside(events, from, to, outer);
  }

  lemma InnerMore(events: seq<Event>, from: nat, to: nat, outer: Stack, f: Frame)
    requires Inner(events, from, to, outer) && to <= |events| && Run(events[..to]) == Open(Push(outer, f))
    ensures Inner(events, from, to + 1, outer)
  {
    assert StaysInside(events, from, to, outer);
    assert StaysInside(events, from, to + 1, outer);
  }

  lemma InnerNest(events: seq<Event>, from: nat, mid: nat, to: nat, outer: Stack, f: Frame)
    requires Inner(events, from, mid + 1, outer) && Inner(events, mid, to, Push(outer, f))
    ensures Inner(events, from, to, outer)
  {
    assert StaysInside(events, from, mid + 1, outer) && StaysInside(events, mid, to, Push(outer, f));
    forall k | from < k < to && k <= |events|
      ensures InsideOf(Run(events[..k]), outer)
    {
      if k > mid {
        HigherStill(Run(events[..k]).stack, outer, f);
      }
    }
    assert StaysInside(events, from, to, outer);
  }

  lemma {:induction false} HigherStill(st: Stack, outer: Stack, f: Frame)
    requires Higher(st, Push(outer, f))
    ensures Higher(st, outer)
    decreases st
  {
    if st.below != Push(outer, f) {
      HigherStill(st.below, outer, f);
    }
  }

  /** In the middle of the collection begun at `from`: its bracket is open and has received `children`. */
  ghost predicate IsAmid(events: seq<Event>, taken: nat, anchors: set<Bytes>, from: nat, outer: Stack, f: Frame, children: seq<Node>) {
    && from < taken <= |events| && Run(events[..taken]) == Open(Push(outer, f)) && anchors == Declared(events[..taken])
    && Inner(events, from, taken + 1, outer) && Collects(events, from, taken, children)
  }

  /** `IsAmid`, met by a proof only where it asks for it. */
  ghost predicate Amid(events: seq<Event>, taken: nat, anchors: set<Bytes>, from: nat, outer: Stack, f: Frame, children: seq<Node>) {
    forall n: nat | n == taken :: IsAmid(events, n, anchors, from, outer, f, children)
  }

  lemma AmidBegins(events: seq<Event>, from: nat, anchors: set<Bytes>, outer: Stack, f: Frame)
    requires from < |events| && Run(events[..from + 1]) == Open(Push(outer, f)) && anchors == Declared(events[..from + 1])
    ensures Amid(events, from + 1, anchors, from, outer, f, [])
  {
    CollectsNone(events, from);
    InnerNone(events, from, from + 1, outer);
    InnerMore(events, from, from + 1, outer, f);
    assert IsAmid(events, from + 1, anchors, from, outer, f, []);
  }

  lemma AmidNext(events: seq<Event>, taken: nat, anchors: set<Bytes>, from: nat, outer: Stack, f: Frame, children: seq<Node>)
    requires Run(events) != Broken && taken < |events| && Amid(events, taken, anchors, from, outer, f, children)
    ensures f.InSeq? ==> StartsNode(events[taken]) || events[taken].SequenceEnd?
    ensures f.MapKey? ==> StartsNode(events[taken]) || events[taken].MappingEnd?
  {
    assert IsAmid(events, taken, anchors, from, outer, f, children);
    NextNotBroken(events, taken);
    NextEvent(outer, f, events[taken]);
  }

  lemma AmidSequence(events: seq<Event>, to: nat, anchors: set<Bytes>, from: nat, outer: Stack, n: Node)
    requires Amid(events, to, anchors, from, outer, InSeq, n.children) && from < to < |events|
    requires events[from].SequenceStart? && events[to].SequenceEnd? && n == NodeAt(SequenceNode, events[from]).(children := n.children)
    ensures Composes(events, from, to + 1, n)
  {
    assert IsAmid(events, to, anchors, from, outer, InSeq, n.children);
    ComposesSequence(events, from, to, n);
  }

  lemma AmidMapping(events: seq<Event>, to: nat, anchors: set<Bytes>, from: nat, outer: Stack, n: Node)
    requires Amid(events, to, anchors, from, outer, MapKey, n.children) && from < to < |events| && |n.children| % 2 == 0
    requires events[from].MappingStart? && events[to].MappingEnd? && n == NodeAt(MappingNode, events[from]).(children := n.children)
    ensures Composes(events, from, to + 1, n)
  {
    assert IsAmid(events, to, anchors, from, outer, MapKey, n.children);
    ComposesMapping(events, from, to, n);
  }

  lemma AmidEnds(events: seq<Event>, anchors: set<Bytes>, from: nat, outer: Stack, f: Frame, children: seq<Node>)
    requires Amid(events, |events|, anchors, from, outer, f, children)
    ensures Run(events) != Closed && Inner(events, from, |events| + 1, outer)
  {
    assert IsAmid(events, |events|, anchors, from, outer, f, children);
    assert events[..|events|] == events;
  }

  /** A failure for which the stream is to blame: it stops short, or an alias is next that no anchor declares. */
  ghost predicate FaultAt(events: seq<Event>, taken: nat, f: Failure) {
    || (f.ParserFailed? && taken == |events| && Run(events) != Closed)
    || (f.UnknownAnchor? && taken < |events| && events[taken].Alias? && events[taken].name == f.name
        && f.name !in Declared(events[..taken]))
  }

  /** What a parser can deliver before it stops. */
  type EventStream = es: seq<Event> | Run(es) != Broken witness []

  class Composer {
    // After these events the parser reports an error.
    const events: EventStream
    // The event peeked at, or NoEvent.
    var event: Event
    var next: nat
    var anchors: set<Bytes>
    var doneInit: bool

    ghost function Taken(): nat
      reads this
    {
      if event.NoEvent? || next == 0 then next else next - 1
    }

    /** The events taken so far. */
    ghost function Consumed(): seq<Event>
      reads this
    {
      if Taken() <= |events| then events[..Taken()] else events
    }

    ghost predicate Valid()
      reads this
    {
      && next <= |events|
      && (!event.NoEvent? ==> next > 0 && event == events[next - 1])
      && KnownTo(events, Taken())
    }

    constructor (events: EventStream)
      ensures Valid() && Taken() == 0 && this.events == events && !doneInit
    {
      this.events := events;
      event := NoEvent;
      next := 0;
      anchors := {};
      doneInit := false;
    }

    /** The next event, which stays the next event. */
    method Peek() returns (r: Result<Event>)
      requires Valid()
      modifies this`event, this`next
      ensures Valid() && Taken() == old(Taken())
      ensures r.Err? ==> r.failure.ParserFailed? && Taken() == |events| && Run(events) == Run(Consumed())
      ensures r.Ok? ==> Taken() < |events| && r.value == event == events[Taken()]
      ensures r.Ok? ==> StepEvent(Run(Consumed()), event) != Broken
    {
      if event.NoEvent? {
        if next == |events| {
          assert Consumed() == events;
          return Err(ParserFailed);
        }
        event := events[next];
        next := next + 1;
        NextNotBroken(events, next - 1);
      }
      NextNotBroken(events, Taken());
      return Ok(event);
    }

    /** Takes the next event if it has the expected type. */
    method Expect(expected: EventType) returns (r: Result<()>)
      requires Valid()
      requires expected.AliasType? && Taken() < |events| && events[Taken()].Alias? ==>
                 events[Taken()].name in Declared(Consumed())
      modifies this`event, this`next
      ensures Valid()
      ensures r.Ok? ==> old(Taken()) < |events| && HasType(events[old(Taken())], expected) && Taken() == old(Taken()) + 1
      ensures r.Ok? ==> event.NoEvent? && Consumed() == old(Consumed()) + [events[old(Taken())]]
      ensures r.Ok? ==> Run(Consumed()) == StepEvent(old(Run(Consumed())), events[old(Taken())])
      ensures r.Err? ==> Taken() == old(Taken())
      ensures r.Err? && Taken() < |events| ==> !HasType(events[Taken()], expected) || events[Taken()].StreamEnd?
      ensures r.Err? && Taken() == |events| ==> r.failure.ParserFailed? && Run(events) == Run(Consumed())
    {
      var peeked := Peek();
      if peeked.Err? { return Err(peeked.failure); }
      if event.StreamEnd? { return Err(PastEnd); }
      if !HasType(event, expected) { return Err(Unexpected); }
      Drop();
      return Ok(());
    }

    /** The event peeked at is taken. */
    method Drop()
      requires Valid() && !event.NoEvent? && Taken() < |events|
      requires events[Taken()].Alias? ==> events[Taken()].name in Declared(Consumed())
      modifies this`event
      ensures Valid() && Taken() == old(Taken()) + 1 && event.NoEvent?
      ensures Consumed() == old(Consumed()) + [events[old(Taken())]]
      ensures Run(Consumed()) == StepEvent(old(Run(Consumed())), events[old(Taken())])
    {
      ghost var t := Taken();
      NextNotBroken(events, t);
      assert events[..t + 1] == events[..t] + [events[t]];
      KnownMore(events, t);
      event := NoEvent;
    }

    /** What every composing method promises about a failure. */
    ghost predicate Excused(f: Failure)
      reads this
    {
      forall g | g == f :: Excuses(g)
    }

    ghost predicate Excuses(f: Failure)
      reads this
    {
      FaultAt(events, Taken(), f)
    }

    /** And it happened inside the node begun at `from`, before the bracket it belongs to got it. */
    ghost predicate ExcusedIn(f: Failure, from: nat, outer: Stack)
      reads this
    {
      Excused(f) && Inner(events, from, Taken() + 1, outer)
    }

    /** What a composing method leaves when it succeeds: the node is exactly the events
        taken, and the bracket it belongs to has received it, with the last of them. */
    ghost predicate Composed(from: nat, below: Stack, top: Frame, n: Node)
      reads this
    {
      && from < Taken() <= |events| && Composes(events, from, Taken(), n)
      && Run(Consumed()) == Open(Push(below, Advance(top)))
      && Inner(events, from, Taken(), Push(below, Advance(top)))
      && anchors == Declared(Consumed())
    }

    /** Composes the node that is due. */
    method Parse(ghost below: Stack, ghost top: Frame) returns (r: Result<Node>)
      requires Valid() && anchors == Declared(Consumed())
      requires TakesNode(top) && Run(Consumed()) == Open(Push(below, top))
      requires top.InSeq? || top.MapKey? ==> Taken() < |events| && StartsNode(events[Taken()])
      modifies this`event, this`next, this`anchors
      ensures Valid()
      ensures r.Err? ==> ExcusedIn(r.failure, old(Taken()), Push(below, Advance(top)))
      ensures r.Ok? ==> Composed(old(Taken()), below, top, r.value)
      decreases |events| - Taken(), 2
    {
      InnerNone(events, Taken(), Taken() + 1, Push(below, Advance(top)));
      var peeked := Peek();
      if peeked.Err? { return Err(peeked.failure); }
      NextEvent(below, top, event);
      r := ParseKind(below, top);
    }

    /** The switch on the next event. */
    method ParseKind(ghost below: Stack, ghost top: Frame) returns (r: Result<Node>)
      requires Valid() && anchors == Declared(Consumed())
      requires TakesNode(top) && Run(Consumed()) == Open(Push(below, top))
      requires Taken() < |events| && event == events[Taken()]
      modifies this`event, this`next, this`anchors
      ensures Valid()
      ensures r.Err? ==> ExcusedIn(r.failure, old(Taken()), Push(below, Advance(top)))
                         || (r.failure.UnknownEvent? && !StartsNode(old(event)))
      ensures r.Ok? ==> Composed(old(Taken()), below, top, r.value)
      decreases |events| - Taken(), 1
    {
      match event
      case Scalar(_, _, _, _, _, _, _, _) => r := ParseScalar(below, top);
      case Alias(_, _, _) => r := ParseAlias(below, top);
      case MappingStart(_, _, _, _, _, _) => r := ParseMapping(below, top);
      case SequenceStart(_, _, _, _, _, _) => r := ParseSequence(below, top);
      case _ => r := Err(UnknownEvent);
    }

    method Anchor(anchor: Option<Bytes>)
      modifies this`anchors
      ensures anchors == old(anchors) + (if anchor.Some? then {anchor.value} else {})
    {
      if anchor.Some? {
        anchors := anchors + {anchor.value};
      }
    }

    method ParseScalar(ghost below: Stack, ghost top: Frame) returns (r: Result<Node>)
      requires Valid() && anchors == Declared(Consumed())
      requires TakesNode(top) && Run(Consumed()) == Open(Push(below, top))
      requires Taken() < |events| && event == events[Taken()] && event.Scalar?
      modifies this`event, this`next, this`anchors
      ensures Valid()
      ensures r.Ok? && Composed(old(Taken()), below, top, r.value)
    {
      var n := ScalarOf(event);
      DeclaredSnoc(Consumed(), event);
      ComposesLeaf(events, Taken());
      InnerNone(events, Taken(), Taken() + 1, Push(below, Advance(top)));
      Anchor(event.anchor);
      var _ := Expect(ScalarType);
      return Ok(n);
    }

    method ParseAlias(ghost below: Stack, ghost top: Frame) returns (r: Result<Node>)
      requires Valid() && anchors == Declared(Consumed())
      requires TakesNode(top) && Run(Consumed()) == Open(Push(below, top))
      requires Taken() < |events| && event == events[Taken()] && event.Alias?
      modifies this`event, this`next, this`anchors
      ensures Valid()
      ensures r.Err? ==> ExcusedIn(r.failure, old(Taken()), Push(below, Advance(top)))
      ensures r.Ok? <==> old(event.name in Declared(Consumed()))
      ensures r.Ok? ==> Composed(old(Taken()), below, top, r.value)
    {
      var n := AliasOf(event);
      InnerNone(events, Taken(), Taken() + 1, Push(below, Advance(top)));
      if event.name !in anchors {
        return Err(UnknownAnchor(event.name));
      }
      DeclaredSnoc(Consumed(), event);
      ComposesLeaf(events, Taken());
      var _ := Expect(AliasType);
      return Ok(n);
    }

    /** Records the anchor of the collection that starts here and takes its START event. */
    method Begin(expected: EventType, ghost below: Stack, ghost top: Frame, ghost f: Frame)
      requires Valid() && anchors == Declared(Consumed())
      requires TakesNode(top) && Run(Consumed()) == Open(Push(below, top))
      requires Taken() < |events| && event == events[Taken()] && HasType(event, expected)
      requires (event.SequenceStart? && f == InSeq) || (event.MappingStart? && f == MapKey)
      modifies this`event, this`next, this`anchors
      ensures Valid() && Taken() == old(Taken()) + 1
      ensures Amid(events, Taken(), anchors, old(Taken()), Push(below, Advance(top)), f, [])
    {
      ghost var from, outer := Taken(), Push(below, Advance(top));
      DeclaredSnoc(Consumed(), event);
      Anchor(event.anchor);
      var _ := Expect(expected);
      AmidBegins(events, from, anchors, outer, f);
    }

    /** Takes the END event of the innermost collection, which the caller has peeked at. */
    method Finish(expected: EventType, ghost below: Stack, ghost top: Frame)
      requires Valid() && anchors == Declared(Consumed()) && Run(Consumed()) == Open(Push(below, top))
      requires Taken() < |events| && HasType(events[Taken()], expected) && EndsFrame(events[Taken()], top)
      modifies this`event, this`next
      ensures Valid() && Taken() == old(Taken()) + 1 && anchors == Declared(Consumed())
      ensures Run(Consumed()) == Open(below)
    {
      DeclaredSnoc(Consumed(), events[Taken()]);
      var _ := Expect(expected);
    }

    /** The same for the collection in hand, which is `n`. */
    method FinishNode(expected: EventType, ghost from: nat, ghost below: Stack, ghost top: Frame, ghost f: Frame, ghost n: Node)
      requires Valid() && Taken() < |events| && Amid(events, Taken(), anchors, from, Push(below, Advance(top)), f, n.children)
      requires HasType(events[Taken()], expected) && EndsFrame(events[Taken()], f) && Composes(events, from, Taken() + 1, n)
      modifies this`event, this`next
      ensures Valid() && Composed(from, below, top, n)
    {
      assert IsAmid(events, Taken(), anchors, from, Push(below, Advance(top)), f, n.children);
      Finish(expected, Push(below, Advance(top)), f);
    }

    method ParseSequence(ghost below: Stack, ghost top: Frame) returns (r: Result<Node>)
      requires Valid() && anchors == Declared(Consumed())
      requires TakesNode(top) && Run(Consumed()) == Open(Push(below, top))
      requires Taken() < |events| && event == events[Taken()] && event.SequenceStart?
      modifies this`event, this`next, this`anchors
      ensures Valid()
      ensures r.Err? ==> ExcusedIn(r.failure, old(Taken()), Push(below, Advance(top)))
      ensures r.Ok? ==> Composed(old(Taken()), below, top, r.value)
      decreases |events| - Taken(), 0
    {
      ghost var from, outer := Taken(), Push(below, Advance(top));
      var n := NodeAt(SequenceNode, event);
      Begin(SequenceStartType, below, top, InSeq);
      var items := SequenceItems(from, outer);
      if items.Err? { return Err(items.failure); }
      n := n.(children := items.value);
      AmidSequence(events, Taken(), anchors, from, outer, n);
      FinishNode(SequenceEndType, from, below, top, InSeq, n);
      return Ok(n);
    }

    method SequenceItems(ghost from: nat, ghost outer: Stack) returns (r: Result<seq<Node>>)
      requires Valid() && Taken() <= |events| && Amid(events, Taken(), anchors, from, outer, InSeq, [])
      modifies this`event, this`next, this`anchors
      ensures Valid()
      ensures r.Err? ==> ExcusedIn(r.failure, from, outer)
      ensures r.Ok? ==> old(Taken()) <= Taken() < |events| && events[Taken()].SequenceEnd?
                        && Amid(events, Taken(), anchors, from, outer, InSeq, r.value)
      decreases |events| - Taken(), 5
    {
      var children: seq<Node> := [];
      var peeked := Peek();
      while peeked.Ok? && !peeked.value.SequenceEnd?
        invariant Valid() && Taken() >= old(Taken()) && Amid(events, Taken(), anchors, from, outer, InSeq, children)
        invariant if peeked.Ok? then Taken() < |events| && peeked.value == events[Taken()]
                  else peeked.failure.ParserFailed? && Taken() == |events|
        decreases |events| - Taken()
      {
        AmidNext(events, Taken(), anchors, from, outer, InSeq, children);
        var child := ParseItem(from, outer, InSeq, children);
        if child.Err? { return Err(child.failure); }
        children := children + [child.value];
        peeked := Peek();
      }
      if peeked.Err? {
        AmidEnds(events, anchors, from, outer, InSeq, children);
        return Err(peeked.failure);
      }
      return Ok(children);
    }

    method ParseMapping(ghost below: Stack, ghost top: Frame) returns (r: Result<Node>)
      requires Valid() && anchors == Declared(Consumed())
      requires TakesNode(top) && Run(Consumed()) == Open(Push(below, top))
      requires Taken() < |events| && event == events[Taken()] && event.MappingStart?
      modifies this`event, this`next, this`anchors
      ensures Valid()
      ensures r.Err? ==> ExcusedIn(r.failure, old(Taken()), Push(below, Advance(top)))
      ensures r.Ok? ==> Composed(old(Taken()), below, top, r.value)
      decreases |events| - Taken(), 0
    {
      ghost var from, outer := Taken(), Push(below, Advance(top));
      var n := NodeAt(MappingNode, event);
      Begin(MappingStartType, below, top, MapKey);
      var items := MappingItems(from, outer);
      if items.Err? { return Err(items.failure); }
      n := n.(children := items.value);
      AmidMapping(events, Taken(), anchors, from, outer, n);
      FinishNode(MappingEndType, from, below, top, MapKey, n);
      return Ok(n);
    }

    method MappingItems(ghost from: nat, ghost outer: Stack) returns (r: Result<seq<Node>>)
      requires Valid() && Taken() <= |events| && Amid(events, Taken(), anchors, from, outer, MapKey, [])
      modifies this`event, this`next, this`anchors
      ensures Valid()
      ensures r.Err? ==> ExcusedIn(r.failure, from, outer)
      ensures r.Ok? ==> old(Taken()) <= Taken() < |events| && events[Taken()].MappingEnd? && |r.value| % 2 == 0
                        && Amid(events, Taken(), anchors, from, outer, MapKey, r.value)
      decreases |events| - Taken(), 6
    {
      var children: seq<Node> := [];
      ghost var pairs: nat := 0;
      var peeked := Peek();
      while peeked.Ok? && !peeked.value.MappingEnd?
        invariant Valid() && Taken() >= old(Taken()) && Amid(events, Taken(), anchors, from, outer, MapKey, children)
        invariant |children| == 2 * pairs
        invariant if peeked.Ok? then Taken() < |events| && peeked.value == events[Taken()]
                  else peeked.failure.ParserFailed? && Taken() == |events|
        decreases |events| - Taken()
      {
        var pair := ParsePair(from, outer, children);
        if pair.Err? { return Err(pair.failure); }
        children := children + [pair.value.0] + [pair.value.1];
        pairs := pairs + 1;
        peeked := Peek();
      }
      if peeked.Err? {
        AmidEnds(events, anchors, from, outer, MapKey, children);
        return Err(peeked.failure);
      }
      TwiceIsEven(pairs, |children|);
      return Ok(children);
    }

    /** One more node of the collection opened by `events[from]`. */
    method ParseItem(ghost from: nat, ghost outer: Stack, ghost f: Frame, ghost children: seq<Node>) returns (r: Result<Node>)
      requires Valid() && TakesMany(f) && Amid(events, Taken(), anchors, from, outer, f, children)
      requires !f.MapValue? ==> Taken() < |events| && StartsNode(events[Taken()])
      modifies this`event, this`next, this`anchors
      ensures Valid()
      ensures r.Err? ==> ExcusedIn(r.failure, from, outer)
      ensures r.Ok? ==> && old(Taken()) < Taken() <= |events|
                        && Amid(events, Taken(), anchors, from, outer, Advance(f), children + [r.value])
      decreases |events| - Taken(), 4
    {
      ghost var mid := Taken();
      assert IsAmid(events, mid, anchors, from, outer, f, children);
      r := Parse(outer, f);
      if r.Ok? {
        CollectsOneMore(events, from, mid, Taken(), children, r.value);
        InnerNest(events, from, mid, Taken(), outer, Advance(f));
        InnerMore(events, from, Taken(), outer, Advance(f));
        assert IsAmid(events, Taken(), anchors, from, outer, Advance(f), children + [r.value]);
      } else {
        InnerNest(events, from, mid, Taken() + 1, outer, Advance(f));
      }
    }

    /** A key and its value: the checker is what rules out a mapping that ends after a key. */
    method ParsePair(ghost from: nat, ghost outer: Stack, ghost children: seq<Node>) returns (r: Result<(Node, Node)>)
      requires Valid() && Amid(events, Taken(), anchors, from, outer, MapKey, children)
      requires Taken() < |events| && !events[Taken()].MappingEnd?
      modifies this`event, this`next, this`anchors
      ensures Valid()
      ensures r.Err? ==> ExcusedIn(r.failure, from, outer)
      ensures r.Ok? ==> && old(Taken()) < Taken() <= |events|
                        && Amid(events, Taken(), anchors, from, outer, MapKey, children + [r.value.0] + [r.value.1])
      decreases |events| - Taken(), 5
    {
      AmidNext(events, Taken(), anchors, from, outer, MapKey, children);
      var key := ParseItem(from, outer, MapKey, children);
      if key.Err? { return Err(key.failure); }
      var value := ParseItem(from, outer, MapValue, children + [key.value]);
      if value.Err? { return Err(value.failure); }
      return Ok((key.value, value.value));
    }

    // ----- Documents -----

    method Init() returns (r: Result<()>)
      requires Valid() && (if doneInit then Run(Consumed()) == Open(STREAM) else Taken() == 0)
      modifies this`event, this`next, this`doneInit
      ensures Valid()
      ensures r.Err? ==> r.failure.ParserFailed? && Taken() == |events| == old(Taken()) && Run(events) != Closed
      ensures r.Ok? ==> doneInit && Run(Consumed()) == Open(STREAM)
      ensures r.Ok? ==> Taken() == old(Taken()) + (if old(doneInit) then 0 else 1)
    {
      if doneInit { return Ok(()); }
      r := OpenStream();
    }

    method OpenStream() returns (r: Result<()>)
      requires Valid() && Taken() == 0
      modifies this`event, this`next, this`doneInit
      ensures Valid()
      ensures r.Err? ==> r.failure.ParserFailed? && Taken() == |events| == 0 && Run(events) != Closed
      ensures r.Ok? ==> doneInit && Taken() == 1 && Run(Consumed()) == Open(STREAM)
    {
      Opening(events);
      var peeked := Peek();
      if peeked.Err? { return Err(peeked.failure); }
      r := Expect(StreamStartType);
      doneInit := true;
    }

    /** Documents until the stream ends, as a decoder asks for them. */
    method ParseAll() returns (r: Result<seq<Node>>)
      requires Valid() && Taken() == 0 && !doneInit
      modifies this
      ensures Valid()
      ensures r.Err? ==> Excused(r.failure)
      ensures r.Ok? ==> Loads(events, r.value)
    {
      var ready := Init();
      if ready.Err? { return Err(ready.failure); }
      StartsStream(events);
      NoDocuments(events);
      var nodes: seq<Node> := [];
      while true
        invariant Valid() && doneInit && Run(Consumed()) == Open(STREAM)
        invariant 1 <= Taken() <= |events| && Documents(events, Taken(), nodes)
        decreases |events| - Taken()
      {
        var document := NextDocument(nodes);
        if document.Err? { return Err(document.failure); }
        if document.value.None? { return Ok(nodes); }
        nodes := nodes + [document.value.value];
      }
    }

    method NextDocument(ghost nodes: seq<Node>) returns (r: Result<Option<Node>>)
      requires Valid() && doneInit && Run(Consumed()) == Open(STREAM)
      requires 1 <= Taken() <= |events| && Documents(events, Taken(), nodes)
      modifies this
      ensures Valid()
      ensures r.Err? ==> Excused(r.failure)
      ensures r.Ok? && r.value.None? ==> Loads(events, nodes)
      ensures r.Ok? && r.value.Some? ==>
                && doneInit && Run(Consumed()) == Open(STREAM) && old(Taken()) < Taken() <= |events|
                && Documents(events, Taken(), nodes + [r.value.value])
    {
      ghost var mid := Taken();
      r := ParseNext();
      if r.Ok? {
        if r.value.None? {
          StartsStream(events);
          AllLoaded(events, mid, nodes);
        } else {
          OneMoreDocument(events, mid, Taken(), nodes, r.value.value);
        }
      }
    }

    /** The next document, or None at the end of the stream. */
    method ParseNext() returns (r: Result<Option<Node>>)
      requires Valid() && (if doneInit then Run(Consumed()) == Open(STREAM) else Taken() == 0)
      modifies this
      ensures Valid()
      ensures r.Err? ==> ExcusedIn(r.failure, old(Taken()) + (if old(doneInit) then 0 else 1), STREAM)
      ensures r.Ok? ==> doneInit && Run(Consumed()) == Open(STREAM)
      ensures r.Ok? && r.value.None? ==>
                && Taken() == old(Taken()) + (if old(doneInit) then 0 else 1)
                && Taken() < |events| && events[Taken()].StreamEnd?
      ensures r.Ok? && r.value.Some? ==>
                var from := old(Taken()) + (if old(doneInit) then 0 else 1);
                from < Taken() <= |events| && ComposesDocument(events, from, Taken(), r.value.value)
    {
      ghost var from := Taken() + (if doneInit then 0 else 1);
      InnerNone(events, from, from, STREAM);
      var ready := Init();
      if ready.Err? { return Err(ready.failure); }
      r := ParseFollowing();
    }

    method ParseFollowing() returns (r: Result<Option<Node>>)
      requires Valid() && doneInit && Run(Consumed()) == Open(STREAM)
      modifies this`event, this`next, this`anchors
      ensures Valid()
      ensures r.Err? ==> ExcusedIn(r.failure, old(Taken()), STREAM)
      ensures r.Ok? ==> Run(Consumed()) == Open(STREAM)
      ensures r.Ok? && r.value.None? ==> Taken() == old(Taken()) < |events| && events[Taken()].StreamEnd?
      ensures r.Ok? && r.value.Some? ==>
                old(Taken()) < Taken() <= |events| && ComposesDocument(events, old(Taken()), Taken(), r.value.value)
    {
      InnerNone(events, Taken(), Taken() + 1, STREAM);
      var peeked := Peek();
      if peeked.Err? { return Err(peeked.failure); }
      NextEvent(Empty, InStream, event);
      if event.StreamEnd? {
        return Ok(None);
      }
      var doc := ParseDocument();
      if doc.Err? { return Err(doc.failure); }
      return Ok(Some(doc.value));
    }

    method ParseDocument() returns (r: Result<Node>)
      requires Valid() && Run(Consumed()) == Open(STREAM)
      requires Taken() < |events| && event == events[Taken()] && event.DocumentStart?
      modifies this`event, this`next, this`anchors
      ensures Valid()
      ensures r.Err? ==> ExcusedIn(r.failure, old(Taken()), STREAM)
      ensures r.Ok? ==> && old(Taken()) < Taken() <= |events| && Run(Consumed()) == Open(STREAM)
                        && ComposesDocument(events, old(Taken()), Taken(), r.value)
    {
      ghost var from := Taken();
      var n := NodeAt(DocumentNode, event);
      StartDocument();
      ghost var mid := Taken();
      var root := Parse(STREAM, DocNode);
      if root.Err? {
        InnerNest(events, from, mid, Taken() + 1, STREAM, DocDone);
        return root;
      }
      InnerNest(events, from, mid, Taken(), STREAM, DocDone);
      n := n.(children := [root.value]);
      r := EndDocument(from, n);
    }

    /** Anchors are those of one document. */
    method StartDocument()
      requires Valid() && Run(Consumed()) == Open(STREAM)
      requires Taken() < |events| && event == events[Taken()] && event.DocumentStart?
      modifies this`event, this`next, this`anchors
      ensures Valid() && Taken() == old(Taken()) + 1 && anchors == Declared(Consumed())
      ensures Run(Consumed()) == Open(Push(STREAM, DocNode)) && Inner(events, old(Taken()), Taken() + 1, STREAM)
    {
      anchors := {};
      DeclaredSnoc(Consumed(), event);
      InnerNone(events, Taken(), Taken() + 1, STREAM);
      var _ := Expect(DocumentStartType);
      InnerMore(events, old(Taken()), Taken(), STREAM, DocNode);
    }

    method EndDocument(ghost from: nat, n: Node) returns (r: Result<Node>)
      requires Valid() && Run(Consumed()) == Open(Push(STREAM, DocDone)) && anchors == Declared(Consumed())
      requires from < Taken() && events[from].DocumentStart? && Inner(events, from, Taken(), STREAM)
      requires |n.children| == 1 && Composes(events, from + 1, Taken(), n.children[0])
      requires n == NodeAt(DocumentNode, events[from]).(children := n.children)
      modifies this`event, this`next
      ensures Valid()
      ensures r.Err? ==> ExcusedIn(r.failure, from, STREAM)
      ensures r.Ok? ==> && Taken() == old(Taken()) + 1 <= |events| && Run(Consumed()) == Open(STREAM)
                        && ComposesDocument(events, from, Taken(), r.value)
    {
      InnerMore(events, from, Taken(), STREAM, DocDone);
      var peeked := Peek();
      if peeked.Err? { return Err(peeked.failure); }
      NextEvent(STREAM, DocDone, event);
      DocumentComposed(events, from, Taken(), n);
      Finish(DocumentEndType, STREAM, DocDone);
      return Ok(n);
    }
  }
}
