/** Tokens to documents: the parser drives the composer. */
module YamlPipeline {
  import opened Prelude
  import opened YamlEvents
  import M = YamlMachine
  import P = YamlParser
  import C = YamlComposer

  /** A run that cannot go on: the stream has ended or the next call reports an error. */
  ghost predicate IsCompleteRun(tokens: seq<Token>, ms: seq<M.Machine>, es: seq<Event>) {
    M.IsRun(tokens, ms, es) && (ms[|es|].state.ParseEnd? || M.Step(ms[|es|]).Failed?)
  }

  lemma ExtendRun(tokens: seq<Token>, ms: seq<M.Machine>, es: seq<Event>, e: Event, m: M.Machine)
    requires M.IsRun(tokens, ms, es) && M.Moves(ms[|es|], e, m)
    ensures M.IsRun(tokens, ms + [m], es + [e])
  {
  }

  /** Calls the parser until it stops. */
  method CollectEvents(tokens: seq<Token>) returns (es: C.EventStream)
    ensures exists ms :: IsCompleteRun(tokens, ms, es)
  {
    var parser := new P.Parser(tokens);
    es := [];
    ghost var ms := [parser.Snap()];
    while !parser.state.ParseEnd?
      invariant fresh(parser) && parser.Valid() && parser.error.NoError? && parser.emitted == es
      invariant parser.tokens == tokens && M.IsRun(tokens, ms, es) && ms[|es|] == parser.Snap()
      decreases 3 * |tokens| - |es|
    {
      ghost var before := parser.Snap();
      var ok, e := parser.Parse();
      if !ok {
        assert IsCompleteRun(tokens, ms, es);
        return;
      }
      ExtendRun(tokens, ms, es, e, parser.Snap());
      ms := ms + [parser.Snap()];
      es := es + [e];
    }
    assert IsCompleteRun(tokens, ms, es);
  }

  /** Why the composer failed, said of the run alone: the parser's next call fails, or an
      alias names no anchor declared before it in its document. */
  ghost predicate HasCause(f: C.Failure, ms: seq<M.Machine>, es: seq<Event>)
    requires |ms| == |es| + 1
  {
    match f
    case ParserFailed => !ms[|es|].state.ParseEnd? && M.Step(ms[|es|]).Failed?
    case UnknownAnchor(name) =>
      exists k :: 0 <= k < |es| && es[k].Alias? && es[k].name == name && name !in C.Declared(es[..k])
    case _ => false
  }

  /** A run that reached its end state has produced a whole stream. */
  lemma EndIsClosed(tokens: seq<Token>, ms: seq<M.Machine>, es: seq<Event>)
    requires IsCompleteRun(tokens, ms, es)
    ensures ms[|es|].state.ParseEnd? <==> Run(es) == Closed
  {
    M.ParserRuns(tokens, ms, es);
    AcceptsExactlyTrees(es);
  }

  lemma CauseOf(tokens: seq<Token>, ms: seq<M.Machine>, es: seq<Event>, k: nat, f: C.Failure)
    requires IsCompleteRun(tokens, ms, es) && C.FaultAt(es, k, f)
    ensures |ms| == |es| + 1 && HasCause(f, ms, es)
  {
    EndIsClosed(tokens, ms, es);
  }

  /** The first document of a complete run, if it has one, with every alias in it known. */
  ghost predicate FirstOf(es: seq<Event>, first: Option<C.Node>) {
    match first
    case None => exists ss, se :: IsStream(es, ss, [], se)
    case Some(n) => exists to: nat :: 1 < to <= |es| && C.ComposesDocument(es, 1, to, n) && C.Known(es, to)
  }

  /** None of the first `k` events completes a document. */
  ghost predicate NoneComplete(es: seq<Event>, k: nat) {
    forall to: nat, n | 1 < to <= k && to <= |es| :: !C.ComposesDocument(es, 1, to, n)
  }

  /** Why the first document was not loaded: the same causes, and before that document is complete. */
  ghost predicate HasFirstCause(f: C.Failure, ms: seq<M.Machine>, es: seq<Event>)
    requires |ms| == |es| + 1
  {
    match f
    case ParserFailed => !ms[|es|].state.ParseEnd? && M.Step(ms[|es|]).Failed? && NoneComplete(es, |es|)
    case UnknownAnchor(name) =>
      exists k :: 0 <= k < |es| && es[k].Alias? && es[k].name == name && name !in C.Declared(es[..k]) && NoneComplete(es, k)
    case _ => false
  }

  /** What loading the first document comes to, in terms of a complete run of the parser. */
  ghost predicate LoadedFirst(tokens: seq<Token>, r: C.Result<Option<C.Node>>) {
    exists ms: seq<M.Machine>, es: seq<Event> ::
      && IsCompleteRun(tokens, ms, es)
      && if r.Ok? then FirstOf(es, r.value) else HasFirstCause(r.failure, ms, es)
  }

  /** A complete document takes the checker back to the stream. */
  lemma DocumentReturns(es: seq<Event>, to: nat, n: C.Node)
    requires 1 < to <= |es| && es[0].StreamStart? && C.ComposesDocument(es, 1, to, n)
    ensures Run(es[..to]) == Open(STREAM)
  {
    var d: DocTree :| d.start.DocumentStart? && TreeOk(d.root) && d.end.DocumentEnd?
      && es[1..to] == [d.start] + Flatten(d.root) + [d.end];
    OneDocument(d);
    RunSnoc([], es[0]);
    assert [] + [es[0]] == [es[0]];
    RunAppend([es[0]], es[1..to]);
    assert es[..to] == [es[0]] + es[1..to];
  }

  lemma OneDocument(d: DocTree)
    requires d.start.DocumentStart? && TreeOk(d.root) && d.end.DocumentEnd?
    ensures RunFrom(Open(STREAM), [d.start] + Flatten(d.root) + [d.end]) == Open(STREAM)
  {
    assert FlattenDocs([d]) == [d.start] + Flatten(d.root) + [d.end] + FlattenDocs([]);
    assert FlattenDocs([d]) == [d.start] + Flatten(d.root) + [d.end];
    DocsAccepted([d]);
  }

  lemma NotComplete(es: seq<Event>, k: nat, to: nat, n: C.Node)
    requires Run(es) != Broken && C.StaysInside(es, 1, k + 1, STREAM) && 1 < to <= k && to <= |es|
    ensures !C.ComposesDocument(es, 1, to, n)
  {
    assert C.InsideOf(Run(es[..to]), STREAM);
    C.StartsStream(es);
    if C.ComposesDocument(es, 1, to, n) {
      DocumentReturns(es, to, n);
    }
  }

  /** Inside the stream's first document, none is complete. */
  lemma InnerNoneComplete(es: seq<Event>, k: nat)
    requires k <= |es| && Run(es) != Broken && C.Inner(es, 1, k + 1, STREAM)
    ensures NoneComplete(es, k)
  {
    assert C.StaysInside(es, 1, k + 1, STREAM);
    forall to: nat, n | 1 < to <= k && to <= |es|
      ensures !C.ComposesDocument(es, 1, to, n)
    {
      NotComplete(es, k, to, n);
    }
  }

  lemma FirstCauseOf(tokens: seq<Token>, ms: seq<M.Machine>, es: seq<Event>, k: nat, f: C.Failure)
    requires IsCompleteRun(tokens, ms, es) && C.FaultAt(es, k, f) && Run(es) != Broken && C.Inner(es, 1, k + 1, STREAM)
    ensures |ms| == |es| + 1 && HasFirstCause(f, ms, es)
  {
    EndIsClosed(tokens, ms, es);
    InnerNoneComplete(es, k);
  }

  /** What composing the first document of the events came to, with `k` of them taken. */
  ghost predicate FirstComposed(es: seq<Event>, r: C.Result<Option<C.Node>>, k: nat) {
    match r
    case Err(f) => C.FaultAt(es, k, f) && C.Inner(es, 1, k + 1, STREAM)
    case Ok(None) => |es| > 1 && Run(es[..1]) == Open(STREAM) && es[1].StreamEnd?
    case Ok(Some(n)) => 1 < k <= |es| && C.ComposesDocument(es, 1, k, n) && C.KnownTo(es, k)
  }

  method ComposeFirst(es: C.EventStream) returns (r: C.Result<Option<C.Node>>, ghost k: nat)
    ensures FirstComposed(es, r, k)
  {
    var composer := new C.Composer(es);
    r := composer.ParseNext();
    k := composer.Taken();
    assert r.Err? ==> composer.Excuses(r.failure);
  }

  lemma FirstResult(tokens: seq<Token>, ms: seq<M.Machine>, es: C.EventStream, r: C.Result<Option<C.Node>>, k: nat)
    requires IsCompleteRun(tokens, ms, es) && FirstComposed(es, r, k)
    ensures LoadedFirst(tokens, r)
  {
    if r.Err? {
      FirstCauseOf(tokens, ms, es, k, r.failure);
    } else if r.value.Some? {
      FirstLoaded(es, k, r.value.value);
    } else {
      NoDocument(es);
    }
    assert IsCompleteRun(tokens, ms, es) && if r.Ok? then FirstOf(es, r.value) else HasFirstCause(r.failure, ms, es);
  }

  /** Composes the first document of a token sequence.  Whatever the tokens, the composer
      fails only because the parser did before that document was complete, or because an alias in
      it names no anchor; otherwise it returns exactly the first document of the parser's events. */
  method LoadFirst(tokens: seq<Token>) returns (r: C.Result<Option<C.Node>>)
    ensures LoadedFirst(tokens, r)
  {
    var es := CollectEvents(tokens);
    ghost var ms: seq<M.Machine> :| IsCompleteRun(tokens, ms, es);
    ghost var k;
    r, k := ComposeFirst(es);
    FirstResult(tokens, ms, es, r, k);
  }

  lemma FirstLoaded(es: seq<Event>, to: nat, n: C.Node)
    requires 1 < to <= |es| && C.ComposesDocument(es, 1, to, n) && C.KnownTo(es, to)
    ensures FirstOf(es, Some(n))
  {
    assert C.Known(es, to);
  }

  lemma NoDocument(es: C.EventStream)
    requires |es| > 1 && Run(es[..1]) == Open(STREAM) && es[1].StreamEnd?
    ensures FirstOf(es, None)
  {
    C.StartsStream(es);
    C.LastIsEnd(es, 1);
    assert es == [es[0]] + FlattenDocs([]) + [es[1]];
    assert IsStream(es, es[0], [], es[1]);
  }

  /** What loading everything comes to: on success the run is a whole stream, every alias in it
      is known, and the nodes are those of its documents. */
  ghost predicate LoadedAll(tokens: seq<Token>, r: C.Result<seq<C.Node>>) {
    exists ms: seq<M.Machine>, es: seq<Event> ::
      && IsCompleteRun(tokens, ms, es)
      && if r.Ok? then ms[|es|].state.ParseEnd? && C.Loads(es, r.value) else HasCause(r.failure, ms, es)
  }

  /** All documents of a token sequence. */
  method LoadAll(tokens: seq<Token>) returns (r: C.Result<seq<C.Node>>)
    ensures LoadedAll(tokens, r)
  {
    var es := CollectEvents(tokens);
    ghost var ms: seq<M.Machine> :| IsCompleteRun(tokens, ms, es);
    var composer := new C.Composer(es);
    r := composer.ParseAll();
    if r.Err? {
      assert composer.Excuses(r.failure);
      CauseOf(tokens, ms, es, composer.Taken(), r.failure);
    } else {
      LoadsCloses(es, r.value);
      EndIsClosed(tokens, ms, es);
    }
    assert IsCompleteRun(tokens, ms, es)
      && if r.Ok? then ms[|es|].state.ParseEnd? && C.Loads(es, r.value) else HasCause(r.failure, ms, es);
  }

  lemma LoadsCloses(es: seq<Event>, nodes: seq<C.Node>)
    requires C.Loads(es, nodes)
    ensures Run(es) == Closed
  {
    AcceptsExactlyTrees(es);
  }

  /** Runs are determined by the tokens, so that there is one complete run. */
  lemma {:induction false} RunsAgree(tokens: seq<Token>, ms: seq<M.Machine>, es: seq<Event>, ms': seq<M.Machine>, es': seq<Event>, k: nat)
    requires M.IsRun(tokens, ms, es) && M.IsRun(tokens, ms', es') && k <= |es| && k <= |es'|
    ensures ms[k] == ms'[k] && es[..k] == es'[..k]
    decreases k
  {
    if k > 0 {
      var j := k - 1;
      RunsAgree(tokens, ms, es, ms', es', j);
      SameMove(ms[j], es[j], ms[k], es'[j], ms'[k]);
      assert es[..k] == es[..j] + [es[j]] && es'[..k] == es'[..j] + [es'[j]];
    }
  }

  lemma SameMove(m: M.Machine, e: Event, m1: M.Machine, e': Event, m1': M.Machine)
    requires M.Moves(m, e, m1) && M.Moves(m, e', m1')
    ensures e == e' && m1 == m1'
  {
  }

  lemma OneCompleteRun(tokens: seq<Token>, ms: seq<M.Machine>, es: seq<Event>, ms': seq<M.Machine>, es': seq<Event>)
    requires IsCompleteRun(tokens, ms, es) && IsCompleteRun(tokens, ms', es')
    ensures es == es' && ms[|es|] == ms'[|es'|]
  {
    var k := if |es| <= |es'| then |es| else |es'|;
    RunsAgree(tokens, ms, es, ms', es', k);
    if k < |es| {
      StillMoves(tokens, ms, es, k);
    }
    if k < |es'| {
      StillMoves(tokens, ms', es', k);
    }
    assert es[..k] == es && es'[..k] == es';
  }

  lemma StillMoves(tokens: seq<Token>, ms: seq<M.Machine>, es: seq<Event>, k: nat)
    requires M.IsRun(tokens, ms, es) && k < |es|
    ensures !ms[k].state.ParseEnd? && M.Step(ms[k]).Produced?
  {
    assert M.Moves(ms[k], es[k], ms[k + 1]);
  }

  /** On a run that ends well and knows every alias, loading succeeds, with the documents of the stream. */
  lemma LoadSucceeds(tokens: seq<Token>, ms: seq<M.Machine>, es: seq<Event>, r: C.Result<seq<C.Node>>)
    requires IsCompleteRun(tokens, ms, es) && LoadedAll(tokens, r)
    ensures r.Ok? <==> ms[|es|].state.ParseEnd? && C.Known(es, |es|)
    ensures r.Ok? ==> exists ss, ds, se :: IsStream(es, ss, ds, se) && C.ErasedDocs(r.value, ds)
  {
    var ms': seq<M.Machine>, es': seq<Event> :|
      && IsCompleteRun(tokens, ms', es')
      && if r.Ok? then ms'[|es'|].state.ParseEnd? && C.Loads(es', r.value) else HasCause(r.failure, ms', es');
    OneCompleteRun(tokens, ms, es, ms', es');
  }

  /** Loading the first document succeeds exactly when the run has it complete, with every alias in it known, or
      is a stream without documents; whatever comes after the document does not matter. */
  lemma FirstSucceeds(tokens: seq<Token>, ms: seq<M.Machine>, es: seq<Event>, r: C.Result<Option<C.Node>>)
    requires IsCompleteRun(tokens, ms, es) && LoadedFirst(tokens, r)
    ensures r.Ok? <==> exists first :: FirstOf(es, first)
  {
    var ms': seq<M.Machine>, es': seq<Event> :|
      && IsCompleteRun(tokens, ms', es')
      && if r.Ok? then FirstOf(es', r.value) else HasFirstCause(r.failure, ms', es');
    OneCompleteRun(tokens, ms, es, ms', es');
    if exists first :: FirstOf(es, first) {
      var first :| FirstOf(es, first);
      forall f
        ensures !HasFirstCause(f, ms', es)
      {
        NoCause(tokens, ms', es, f, first);
      }
    }
  }

  lemma NoCause(tokens: seq<Token>, ms: seq<M.Machine>, es: seq<Event>, f: C.Failure, first: Option<C.Node>)
    requires IsCompleteRun(tokens, ms, es) && FirstOf(es, first)
    ensures |ms| == |es| + 1 && !HasFirstCause(f, ms, es)
  {
    if first.None? {
      NothingMissed(tokens, ms, es);
    } else {
      var to: nat :| 1 < to <= |es| && C.ComposesDocument(es, 1, to, first.value) && C.Known(es, to);
      forall k: nat | NoneComplete(es, k)
        ensures k < to
      {
        assert C.ComposesDocument(es, 1, to, first.value);
      }
    }
  }

  /** A stream without documents has no alias, and the parser ends it. */
  lemma NothingMissed(tokens: seq<Token>, ms: seq<M.Machine>, es: seq<Event>)
    requires IsCompleteRun(tokens, ms, es) && FirstOf(es, None)
    ensures ms[|es|].state.ParseEnd? && forall k | 0 <= k < |es| :: !es[k].Alias?
  {
    var ss, se :| IsStream(es, ss, [], se);
    AcceptsExactlyTrees(es);
    EndIsClosed(tokens, ms, es);
    assert es == [ss] + [] + [se];
  }
}
