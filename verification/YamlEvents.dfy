/** Tokens and events of the YAML pipeline, and what a well-nested event stream is.

    Nesting is defined twice.  `Run` is a checker that reads events one at a time
    and keeps a stack of open brackets; it is what the parser's invariant speaks
    of.  `Tree` and `Flatten` describe whole documents.  The lemmas at the end show
    that the two agree: what the checker accepts is exactly what some trees flatten
    to, and whatever it has not rejected can be completed. */
module YamlEvents {
  import opened Prelude

  datatype Mark = Mark(index: int, line: int, column: int)

  datatype TokenType =
    | StreamStartToken | StreamEndToken
    | VersionDirectiveToken | TagDirectiveToken
    | DocumentStartToken | DocumentEndToken
    | BlockSequenceStartToken | BlockMappingStartToken | BlockEndToken
    | FlowSequenceStartToken | FlowSequenceEndToken
    | FlowMappingStartToken | FlowMappingEndToken
    | BlockEntryToken | FlowEntryToken | KeyToken | ValueToken
    | AliasToken | AnchorToken | TagToken | ScalarToken

  datatype ScalarStyle = AnyScalar | Plain | SingleQuoted | DoubleQuoted | Literal | Folded

  datatype CollectionStyle = BlockStyle | FlowStyle

  datatype Token = Token(
    typ: TokenType,
    startMark: Mark,
    endMark: Mark,
    encoding: int,
    value: Bytes,
    suffix: Bytes,
    prefix: Bytes,
    style: ScalarStyle,
    major: int,
    minor: int)

  datatype Version = Version(major: int, minor: int)

  datatype TagDirective = TagDirective(handle: Bytes, prefix: Bytes)

  datatype Event =
    | NoEvent
    | StreamStart(startMark: Mark, endMark: Mark, encoding: int)
    | StreamEnd(startMark: Mark, endMark: Mark)
    | DocumentStart(startMark: Mark, endMark: Mark, version: Option<Version>,
                    tagDirectives: seq<TagDirective>, implicit: bool)
    | DocumentEnd(startMark: Mark, endMark: Mark, implicit: bool)
    | Alias(startMark: Mark, endMark: Mark, name: Bytes)
    | Scalar(startMark: Mark, endMark: Mark, anchor: Option<Bytes>, tag: Bytes, value: Bytes,
             implicit: bool, quotedImplicit: bool, scalarStyle: ScalarStyle)
    | SequenceStart(startMark: Mark, endMark: Mark, anchor: Option<Bytes>, tag: Bytes,
                    implicit: bool, style: CollectionStyle)
    | SequenceEnd(startMark: Mark, endMark: Mark)
    | MappingStart(startMark: Mark, endMark: Mark, anchor: Option<Bytes>, tag: Bytes,
                   implicit: bool, style: CollectionStyle)
    | MappingEnd(startMark: Mark, endMark: Mark)

  // ----- The nesting checker -----

  /** An open bracket, with what it still expects: a document before or after its
      node, a mapping before a key or before a value. */
  datatype Frame = InStream | DocNode | DocDone | InSeq | MapKey | MapValue

  /** The open brackets, innermost on top. */
  datatype Stack = Empty | Push(below: Stack, top: Frame)

  datatype Shape = Start | Open(stack: Stack) | Closed | Broken

  const STREAM := Push(Empty, InStream)

  predicate TakesNode(f: Frame) {
    f.DocNode? || f.InSeq? || f.MapKey? || f.MapValue?
  }

  /** What frame `f` expects once it has received one more node. */
  function Advance(f: Frame): Frame {
    match f
    case DocNode => DocDone
    case MapKey => MapValue
    case MapValue => MapKey
    case _ => f
  }

  /** END event `e` may close a bracket in state `top`. */
  predicate EndsFrame(e: Event, top: Frame) {
    || (e.SequenceEnd? && top.InSeq?)
    || (e.MappingEnd? && top.MapKey?)
    || (e.DocumentEnd? && top.DocDone?)
  }

  function StepEvent(s: Shape, e: Event): Shape {
    match s
    case Start => if e.StreamStart? then Open(STREAM) else Broken
    case Open(stack) => if stack.Empty? then Broken else StepOpen(stack.below, stack.top, e)
    case _ => Broken
  }

  function StepOpen(below: Stack, top: Frame, e: Event): Shape {
    if e.Scalar? || e.Alias? then
      if TakesNode(top) then Open(Push(below, Advance(top))) else Broken
    else if e.SequenceStart? then
      if TakesNode(top) then Open(Push(Push(below, Advance(top)), InSeq)) else Broken
    else if e.MappingStart? then
      if TakesNode(top) then Open(Push(Push(below, Advance(top)), MapKey)) else Broken
    else if EndsFrame(e, top) then
      Open(below)
    else if e.DocumentStart? && top.InStream? then
      Open(Push(Push(below, top), DocNode))
    else if e.StreamEnd? && top.InStream? && below.Empty? then
      Closed
    else
      Broken
  }

  function Run(es: seq<Event>): Shape {
    if es == [] then Start else StepEvent(Run(es[..|es| - 1]), es[|es| - 1])
  }

  lemma RunSnoc(es: seq<Event>, e: Event)
    ensures Run(es + [e]) == StepEvent(Run(es), e)
  {
    assert (es + [e])[..|es|] == es;
  }

  function RunFrom(s: Shape, es: seq<Event>): Shape
    decreases |es|
  {
    if es == [] then s else RunFrom(StepEvent(s, es[0]), es[1..])
  }

  lemma {:induction false} RunAppend(es: seq<Event>, more: seq<Event>)
    ensures Run(es + more) == RunFrom(Run(es), more)
    decreases |more|
  {
    if more == [] {
      assert es + more == es;
    } else {
      RunSnoc(es, more[0]);
      assert es + more == (es + [more[0]]) + more[1..];
      RunAppend(es + [more[0]], more[1..]);
    }
  }

  lemma {:induction false} RunFromAppend(s: Shape, es: seq<Event>, more: seq<Event>)
    ensures RunFrom(s, es + more) == RunFrom(RunFrom(s, es), more)
    decreases |es|
  {
    if es == [] {
      assert es + more == more;
    } else {
      assert (es + more)[1..] == es[1..] + more;
      RunFromAppend(StepEvent(s, es[0]), es[1..], more);
    }
  }

  lemma {:induction false} BrokenStays(es: seq<Event>)
    ensures RunFrom(Broken, es) == Broken
    decreases |es|
  {
    if es != [] {
      BrokenStays(es[1..]);
    }
  }

  // ----- Trees -----

  datatype Tree =
    | Leaf(event: Event)
    | SeqTree(start: Event, items: seq<Tree>, end: Event)
    | MapTree(start: Event, items: seq<Tree>, end: Event)

  datatype DocTree = DocTree(start: Event, root: Tree, end: Event)

  ghost predicate TreeOk(t: Tree) {
    match t
    case Leaf(e) => e.Scalar? || e.Alias?
    case SeqTree(s, items, e) =>
      s.SequenceStart? && e.SequenceEnd? && forall i | 0 <= i < |items| :: TreeOk(items[i])
    case MapTree(s, items, e) =>
      s.MappingStart? && e.MappingEnd? && |items| % 2 == 0 && forall i | 0 <= i < |items| :: TreeOk(items[i])
  }

  ghost predicate TreesOk(ts: seq<Tree>) {
    forall i | 0 <= i < |ts| :: TreeOk(ts[i])
  }

  ghost predicate DocsOk(ds: seq<DocTree>) {
    forall i | 0 <= i < |ds| :: ds[i].start.DocumentStart? && TreeOk(ds[i].root) && ds[i].end.DocumentEnd?
  }

  function Flatten(t: Tree): (es: seq<Event>)
    ensures es != []
    decreases t, 1
  {
    match t
    case Leaf(e) => [e]
    case SeqTree(s, items, e) => [s] + FlattenAll(items) + [e]
    case MapTree(s, items, e) => [s] + FlattenAll(items) + [e]
  }

  function FlattenAll(ts: seq<Tree>): seq<Event>
    decreases ts, 0
  {
    if ts == [] then [] else Flatten(ts[0]) + FlattenAll(ts[1..])
  }

  function FlattenDocs(ds: seq<DocTree>): seq<Event> {
    if ds == [] then [] else [ds[0].start] + Flatten(ds[0].root) + [ds[0].end] + FlattenDocs(ds[1..])
  }

  /** A whole stream: its documents between the stream brackets. */
  ghost predicate IsStream(es: seq<Event>, ss: Event, ds: seq<DocTree>, se: Event) {
    ss.StreamStart? && se.StreamEnd? && DocsOk(ds) && es == [ss] + FlattenDocs(ds) + [se]
  }

  // ----- The checker accepts what trees flatten to -----

  predicate TakesMany(f: Frame) {
    f.InSeq? || f.MapKey? || f.MapValue?
  }

  /** What frame `f` expects once it has received `n` more nodes. */
  function AdvanceBy(f: Frame, n: nat): Frame
    ensures f.InSeq? ==> AdvanceBy(f, n).InSeq?
    ensures f.MapKey? ==> AdvanceBy(f, n) == if n % 2 == 0 then MapKey else MapValue
    ensures f.MapValue? ==> AdvanceBy(f, n) == if n % 2 == 0 then MapValue else MapKey
    decreases n
  {
    if n == 0 then f else AdvanceBy(Advance(f), n - 1)
  }

  lemma {:induction false} TreeAccepted(t: Tree, below: Stack, top: Frame)
    requires TreeOk(t) && TakesNode(top)
    ensures RunFrom(Open(Push(below, top)), Flatten(t)) == Open(Push(below, Advance(top)))
    decreases t, 1
  {
    var outer := Push(below, Advance(top));
    match t
    case Leaf(e) =>
      assert Flatten(t)[1..] == [];
    case SeqTree(s, items, e) =>
      TreesAccepted(items, outer, InSeq);
      BracketAccepted(s, FlattenAll(items), e, Open(Push(below, top)));
    case MapTree(s, items, e) =>
      TreesAccepted(items, outer, MapKey);
      BracketAccepted(s, FlattenAll(items), e, Open(Push(below, top)));
  }

  lemma BracketAccepted(s: Event, body: seq<Event>, e: Event, from: Shape)
    ensures RunFrom(from, [s] + body + [e]) == StepEvent(RunFrom(StepEvent(from, s), body), e)
  {
    assert ([s] + body + [e])[1..] == body + [e];
    var inner := StepEvent(from, s);
    RunFromAppend(inner, body, [e]);
    assert RunFrom(RunFrom(inner, body), [e]) == RunFrom(StepEvent(RunFrom(inner, body), e), []);
  }

  lemma {:induction false} TreesAccepted(ts: seq<Tree>, below: Stack, top: Frame)
    requires TreesOk(ts) && TakesMany(top)
    ensures RunFrom(Open(Push(below, top)), FlattenAll(ts)) == Open(Push(below, AdvanceBy(top, |ts|)))
    decreases ts, 0
  {
    if ts != [] {
      TreeAccepted(ts[0], below, top);
      RunFromAppend(Open(Push(below, top)), Flatten(ts[0]), FlattenAll(ts[1..]));
      TreesAccepted(ts[1..], below, Advance(top));
    }
  }

  lemma {:induction false} DocsAccepted(ds: seq<DocTree>)
    requires DocsOk(ds)
    ensures RunFrom(Open(STREAM), FlattenDocs(ds)) == Open(STREAM)
    decreases |ds|
  {
    if ds != [] {
      var d := ds[0];
      TreeAccepted(d.root, STREAM, DocNode);
      BracketAccepted(d.start, Flatten(d.root), d.end, Open(STREAM));
      RunFromAppend(Open(STREAM), [d.start] + Flatten(d.root) + [d.end], FlattenDocs(ds[1..]));
      DocsAccepted(ds[1..]);
    }
  }

  lemma StreamAccepted(es: seq<Event>, ss: Event, ds: seq<DocTree>, se: Event)
    requires IsStream(es, ss, ds, se)
    ensures Run(es) == Closed
  {
    RunSnoc([], ss);
    assert [] + [ss] == [ss];
    RunAppend([ss], FlattenDocs(ds));
    DocsAccepted(ds);
    RunSnoc([ss] + FlattenDocs(ds), se);
  }

  // ----- The checker accepts nothing else -----

  lemma {:induction false} ReadTree(es: seq<Event>, below: Stack, top: Frame) returns (t: Tree, rest: seq<Event>)
    requires TakesNode(top) && RunFrom(Open(Push(below, top)), es) == Closed
    requires es != [] && !es[0].SequenceEnd? && !es[0].MappingEnd?
    ensures TreeOk(t) && es == Flatten(t) + rest
    ensures RunFrom(Open(Push(below, Advance(top))), rest) == Closed
    decreases |es|, 0
  {
    var e := es[0];
    var outer := Push(below, Advance(top));
    BrokenStays(es[1..]);
    if e.SequenceStart? {
      var items, after := ReadTrees(es[1..], outer, InSeq);
      ReadEnd(after, outer, InSeq);
      t, rest := SeqTree(e, items, after[0]), after[1..];
      assert es == [e] + FlattenAll(items) + [after[0]] + rest;
    } else if e.MappingStart? {
      var items, after := ReadTrees(es[1..], outer, MapKey);
      ReadEnd(after, outer, AdvanceBy(MapKey, |items|));
      t, rest := MapTree(e, items, after[0]), after[1..];
      assert es == [e] + FlattenAll(items) + [after[0]] + rest;
    } else {
      t, rest := Leaf(e), es[1..];
    }
  }

  lemma {:induction false} ReadTrees(es: seq<Event>, below: Stack, top: Frame) returns (ts: seq<Tree>, rest: seq<Event>)
    requires TakesMany(top) && RunFrom(Open(Push(below, top)), es) == Closed
    ensures TreesOk(ts) && es == FlattenAll(ts) + rest
    ensures RunFrom(Open(Push(below, AdvanceBy(top, |ts|))), rest) == Closed
    ensures rest != [] && (rest[0].SequenceEnd? || rest[0].MappingEnd?)
    decreases |es|, 1
  {
    if es[0].SequenceEnd? || es[0].MappingEnd? {
      ts, rest := [], es;
    } else {
      var t, more := ReadTree(es, below, top);
      ts, rest := ReadTrees(more, below, Advance(top));
      assert ([t] + ts)[1..] == ts;
      assert es == (Flatten(t) + FlattenAll(ts)) + rest;
      ts := [t] + ts;
    }
  }

  /** An END event that leads to acceptance closes the innermost bracket. */
  lemma ReadEnd(es: seq<Event>, below: Stack, top: Frame)
    requires TakesMany(top) && RunFrom(Open(Push(below, top)), es) == Closed
    requires es != [] && (es[0].SequenceEnd? || es[0].MappingEnd?)
    ensures es[0].SequenceEnd? <==> top.InSeq?
    ensures !top.MapValue? && RunFrom(Open(below), es[1..]) == Closed
  {
    BrokenStays(es[1..]);
  }

  lemma ReadDoc(es: seq<Event>) returns (d: DocTree, rest: seq<Event>)
    requires RunFrom(Open(STREAM), es) == Closed
    requires es != [] && !es[0].StreamEnd?
    ensures d.start.DocumentStart? && TreeOk(d.root) && d.end.DocumentEnd?
    ensures es == [d.start] + Flatten(d.root) + [d.end] + rest
    ensures RunFrom(Open(STREAM), rest) == Closed
  {
    var body := es[1..];
    BrokenStays(body);
    BrokenStays(body[1..]);
    var t, more := ReadTree(body, STREAM, DocNode);
    BrokenStays(more[1..]);
    d, rest := DocTree(es[0], t, more[0]), more[1..];
    assert es == [es[0]] + (Flatten(t) + more);
  }

  lemma {:induction false} ReadDocs(es: seq<Event>) returns (ds: seq<DocTree>, se: Event)
    requires RunFrom(Open(STREAM), es) == Closed
    ensures DocsOk(ds) && se.StreamEnd? && es == FlattenDocs(ds) + [se]
    decreases |es|
  {
    if es[0].StreamEnd? {
      ClosedStays(es[1..]);
      ds, se := [], es[0];
    } else {
      var d, more := ReadDoc(es);
      ds, se := ReadDocs(more);
      assert ([d] + ds)[1..] == ds;
      assert es == ([d.start] + Flatten(d.root) + [d.end] + FlattenDocs(ds)) + [se];
      ds := [d] + ds;
    }
  }

  lemma ClosedStays(es: seq<Event>)
    requires RunFrom(Closed, es) == Closed
    ensures es == []
  {
    if es != [] {
      BrokenStays(es[1..]);
    }
  }

  /** The checker accepts a whole stream exactly when it is the flattening of documents. */
  lemma AcceptsExactlyTrees(es: seq<Event>)
    ensures Run(es) == Closed <==> exists ss, ds, se :: IsStream(es, ss, ds, se)
  {
    forall ss, ds, se | IsStream(es, ss, ds, se)
      ensures Run(es) == Closed
    {
      StreamAccepted(es, ss, ds, se);
    }
    if Run(es) == Closed {
      assert [] + es == es;
      RunAppend([], es);
      BrokenStays(es[1..]);
      var ds, se := ReadDocs(es[1..]);
      assert IsStream(es, es[0], ds, se);
    }
  }

  // ----- Whatever has not been rejected can be completed -----

  const ORIGIN := Mark(0, 0, 0)
  const EMPTY_SCALAR := Scalar(ORIGIN, ORIGIN, None, [], [], true, false, Plain)

  /** Events that close every open bracket. */
  function Completion(stack: Stack): seq<Event> {
    match stack
    case Empty => []
    case Push(below, top) =>
      (match top
       case InStream => [StreamEnd(ORIGIN, ORIGIN)]
       case DocNode => [EMPTY_SCALAR, DocumentEnd(ORIGIN, ORIGIN, true)]
       case DocDone => [DocumentEnd(ORIGIN, ORIGIN, true)]
       case InSeq => [SequenceEnd(ORIGIN, ORIGIN)]
       case MapKey => [MappingEnd(ORIGIN, ORIGIN)]
       case MapValue => [EMPTY_SCALAR, MappingEnd(ORIGIN, ORIGIN)])
      + Completion(below)
  }

  /** The stream bracket is at the bottom and nowhere else. */
  predicate Rooted(stack: Stack) {
    match stack
    case Empty => false
    case Push(below, top) => if top.InStream? then below.Empty? else Rooted(below)
  }

  lemma {:induction false} ReachableRooted(es: seq<Event>)
    ensures Run(es).Open? ==> Rooted(Run(es).stack)
    decreases |es|
  {
    if es != [] {
      ReachableRooted(es[..|es| - 1]);
    }
  }

  lemma {:induction false} CompletionCloses(stack: Stack)
    requires Rooted(stack)
    ensures RunFrom(Open(stack), Completion(stack)) == Closed
  {
    var Push(below, top) := stack;
    var es := Completion(stack);
    if top.InStream? {
      assert es == [StreamEnd(ORIGIN, ORIGIN)];
    } else {
      CompletionCloses(below);
      if top.DocNode? || top.MapValue? {
        assert es[2..] == Completion(below);
        assert es[1..][1..] == Completion(below);
      } else {
        assert es[1..] == Completion(below);
      }
    }
  }

  /** Every event sequence the checker has not rejected is a prefix of a whole stream. */
  lemma PrefixOfStream(es: seq<Event>)
    requires Run(es) != Broken
    ensures exists more, ss, ds, se :: IsStream(es + more, ss, ds, se)
  {
    var more := match Run(es)
      case Start => [StreamStart(ORIGIN, ORIGIN, 0)] + Completion(STREAM)
      case Open(stack) => Completion(stack)
      case _ => [];
    RunAppend(es, more);
    if Run(es).Open? {
      ReachableRooted(es);
      CompletionCloses(Run(es).stack);
    } else if Run(es).Start? {
      CompletionCloses(STREAM);
      assert more[1..] == Completion(STREAM);
    }
    AcceptsExactlyTrees(es + more);
    var ss, ds, se :| IsStream(es + more, ss, ds, se);
  }

  // ----- Trees are determined by their events -----

  lemma {:induction false} FlattenInjective(t: Tree, t': Tree, rest: seq<Event>, rest': seq<Event>)
    requires TreeOk(t) && TreeOk(t') && Flatten(t) + rest == Flatten(t') + rest'
    ensures t == t' && rest == rest'
    decreases t, 1
  {
    assert (Flatten(t) + rest)[0] == Flatten(t)[0];
    assert (Flatten(t') + rest')[0] == Flatten(t')[0];
    match t
    case Leaf(e) =>
      assert rest == (Flatten(t) + rest)[1..];
      assert rest' == (Flatten(t') + rest')[1..];
    case SeqTree(s, items, e) =>
      CutOpening(s, items, e, t'.items, t'.end, rest, rest');
      FlattenAllInjective(items, t'.items, [e] + rest, [t'.end] + rest');
      assert rest == ([e] + rest)[1..];
      assert rest' == ([t'.end] + rest')[1..];
    case MapTree(s, items, e) =>
      CutOpening(s, items, e, t'.items, t'.end, rest, rest');
      FlattenAllInjective(items, t'.items, [e] + rest, [t'.end] + rest');
      assert rest == ([e] + rest)[1..];
      assert rest' == ([t'.end] + rest')[1..];
  }

  lemma CutOpening(s: Event, items: seq<Tree>, e: Event, items': seq<Tree>, e': Event,
                   rest: seq<Event>, rest': seq<Event>)
    requires [s] + FlattenAll(items) + [e] + rest == [s] + FlattenAll(items') + [e'] + rest'
    ensures FlattenAll(items) + ([e] + rest) == FlattenAll(items') + ([e'] + rest')
  {
    Behead(s, FlattenAll(items), e, rest);
    Behead(s, FlattenAll(items'), e', rest');
  }

  lemma Behead(s: Event, mid: seq<Event>, e: Event, rest: seq<Event>)
    ensures ([s] + mid + [e] + rest)[1..] == mid + ([e] + rest)
  {
  }

  lemma {:induction false} FlattenAllInjective(ts: seq<Tree>, ts': seq<Tree>, rest: seq<Event>, rest': seq<Event>)
    requires TreesOk(ts) && TreesOk(ts') && FlattenAll(ts) + rest == FlattenAll(ts') + rest'
    requires rest != [] && (rest[0].SequenceEnd? || rest[0].MappingEnd?)
    requires rest' != [] && (rest'[0].SequenceEnd? || rest'[0].MappingEnd?)
    ensures ts == ts' && rest == rest'
    decreases ts, 0
  {
    FirstEvent(ts, rest);
    FirstEvent(ts', rest');
    if ts != [] && ts' != [] {
      assert FlattenAll(ts) + rest == Flatten(ts[0]) + (FlattenAll(ts[1..]) + rest);
      assert FlattenAll(ts') + rest' == Flatten(ts'[0]) + (FlattenAll(ts'[1..]) + rest');
      FlattenInjective(ts[0], ts'[0], FlattenAll(ts[1..]) + rest, FlattenAll(ts'[1..]) + rest');
      FlattenAllInjective(ts[1..], ts'[1..], rest, rest');
    } else {
      assert FlattenAll([]) + rest == rest && FlattenAll([]) + rest' == rest';
    }
  }

  lemma FirstEvent(ts: seq<Tree>, rest: seq<Event>)
    requires TreesOk(ts) && rest != []
    ensures var e := (FlattenAll(ts) + rest)[0];
            if ts == [] then e == rest[0] else !e.SequenceEnd? && !e.MappingEnd?
  {
    if ts != [] {
      assert TreeOk(ts[0]);
    }
  }
}
