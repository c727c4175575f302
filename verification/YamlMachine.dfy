/** The YAML parser's state machine as functions: what one call of the parser does to
    its state, panics included, and what holds over every run.

    The scanner is replaced by the token sequence it would deliver; when that
    sequence runs out, asking for another token is a scanner error. */
module YamlMachine {
  import opened Prelude
  import opened YamlEvents

  datatype State =
    | ParseStreamStart
    | ParseImplicitDocumentStart
    | ParseDocumentStart
    | ParseDocumentContent
    | ParseDocumentEnd
    | ParseBlockNode
    | ParseBlockNodeOrIndentlessSequence
    | ParseFlowNode
    | ParseBlockSequenceFirstEntry
    | ParseBlockSequenceEntry
    | ParseIndentlessSequenceEntry
    | ParseBlockMappingFirstKey
    | ParseBlockMappingKey
    | ParseBlockMappingValue
    | ParseFlowSequenceFirstEntry
    | ParseFlowSequenceEntry
    | ParseFlowSequenceEntryMappingKey
    | ParseFlowSequenceEntryMappingValue
    | ParseFlowSequenceEntryMappingEnd
    | ParseFlowMappingFirstKey
    | ParseFlowMappingKey
    | ParseFlowMappingValue
    | ParseFlowMappingEmptyValue
    | ParseEnd

  /** "tag:yaml.org,2002:", the prefix of the handle "!!". */
  const CORE_TAG_PREFIX: Bytes := [116, 97, 103, 58, 121, 97, 109, 108, 46, 111, 114, 103, 44, 50, 48, 48, 50, 58]

  /** The parser's fields. */
  datatype Machine = Machine(
    tokens: seq<Token>,
    pos: nat,
    state: State,
    states: seq<State>,
    marks: seq<Mark>,
    tagDirectives: seq<TagDirective>,
    ended: bool)

  /** What one call does: an event, a reported error, or a Go run-time panic. */
  datatype Outcome = Produced(event: Event, next: Machine) | Failed(problem: string) | Panic

  const NO_TOKEN := "found unexpected end of stream"

  // ----- Primitive moves -----

  function Initial(tokens: seq<Token>): Machine {
    Machine(tokens, 0, ParseStreamStart, [], [], [], false)
  }

  predicate HasToken(m: Machine) {
    m.pos < |m.tokens|
  }

  function Peek(m: Machine): Token
    requires HasToken(m)
  {
    m.tokens[m.pos]
  }

  function Skip(m: Machine): Machine
    requires HasToken(m)
  {
    m.(pos := m.pos + 1, ended := Peek(m).typ.StreamEndToken?)
  }

  function Goto(m: Machine, s: State): Machine {
    m.(state := s)
  }

  function PushState(m: Machine, s: State): Machine {
    m.(states := m.states + [s])
  }

  function PopState(m: Machine): Machine
    requires |m.states| > 0
  {
    var n := |m.states| - 1;
    m.(state := m.states[n], states := m.states[..n])
  }

  function DropMark(m: Machine): Machine
    requires |m.marks| > 0
  {
    m.(marks := m.marks[..|m.marks| - 1])
  }

  function EmptyScalar(mark: Mark): Event {
    Scalar(mark, mark, None, [], [], true, false, Plain)
  }

  // ----- Nodes -----

  datatype Properties =
    | Properties(m: Machine, startMark: Mark, endMark: Mark, anchor: Option<Bytes>, tag: Bytes)
    | BadProperties(problem: string)

  /** The prefix of the first directive with this handle, followed by the suffix. */
  function ResolveTag(directives: seq<TagDirective>, handle: Bytes, suffix: Bytes): Bytes {
    if directives == [] then []
    else if directives[0].handle == handle then directives[0].prefix + suffix
    else ResolveTag(directives[1..], handle, suffix)
  }

  function WithTag(m: Machine, startMark: Mark, endMark: Mark, anchor: Option<Bytes>, tagToken: Token): Properties {
    if tagToken.value == [] then
      Properties(m, startMark, endMark, anchor, tagToken.suffix)
    else
      var tag := ResolveTag(m.tagDirectives, tagToken.value, tagToken.suffix);
      if tag == [] then BadProperties("found undefined tag handle")
      else Properties(m, startMark, endMark, anchor, tag)
  }

  /** An anchor and a tag, in either order, and at least one token after them. */
  function ReadProperties(m: Machine): Properties
    requires HasToken(m)
  {
    var token := Peek(m);
    if token.typ.AnchorToken? then
      var m1 := Skip(m);
      if !HasToken(m1) then BadProperties(NO_TOKEN)
      else if Peek(m1).typ.TagToken? then
        var m2 := Skip(m1);
        if !HasToken(m2) then BadProperties(NO_TOKEN)
        else WithTag(m2, token.startMark, Peek(m1).endMark, Some(token.value), Peek(m1))
      else Properties(m1, token.startMark, token.endMark, Some(token.value), [])
    else if token.typ.TagToken? then
      var m1 := Skip(m);
      if !HasToken(m1) then BadProperties(NO_TOKEN)
      else if Peek(m1).typ.AnchorToken? then
        var m2 := Skip(m1);
        if !HasToken(m2) then BadProperties(NO_TOKEN)
        else WithTag(m2, token.startMark, Peek(m1).endMark, Some(Peek(m1).value), token)
      else WithTag(m1, token.startMark, token.endMark, None, token)
    else
      Properties(m, token.startMark, token.startMark, None, [])
  }

  /** The content after a node's properties: a scalar, the start of a collection, or
      nothing at all if there were properties. */
  function ReadContent(p: Properties, block: bool, indentless: bool): Outcome
    requires p.Properties? && HasToken(p.m)
  {
    var Properties(m, startMark, endMark, anchor, tag) := p;
    var token := Peek(m);
    var implicit := tag == [];
    if indentless && token.typ.BlockEntryToken? then
      Produced(SequenceStart(startMark, token.endMark, anchor, tag, implicit, BlockStyle),
               Goto(m, ParseIndentlessSequenceEntry))
    else if token.typ.ScalarToken? then
      var plainImplicit := (tag == [] && token.style.Plain?) || tag == [33];
      var quotedImplicit := !plainImplicit && tag == [];
      if |m.states| == 0 then Panic else
      Produced(Scalar(startMark, token.endMark, anchor, tag, token.value, plainImplicit, quotedImplicit, token.style),
               Skip(PopState(m)))
    else if token.typ.FlowSequenceStartToken? then
      Produced(SequenceStart(startMark, token.endMark, anchor, tag, implicit, FlowStyle),
               Goto(m, ParseFlowSequenceFirstEntry))
    else if token.typ.FlowMappingStartToken? then
      Produced(MappingStart(startMark, token.endMark, anchor, tag, implicit, FlowStyle),
               Goto(m, ParseFlowMappingFirstKey))
    else if block && token.typ.BlockSequenceStartToken? then
      Produced(SequenceStart(startMark, token.endMark, anchor, tag, implicit, BlockStyle),
               Goto(m, ParseBlockSequenceFirstEntry))
    else if block && token.typ.BlockMappingStartToken? then
      Produced(MappingStart(startMark, token.endMark, anchor, tag, implicit, BlockStyle),
               Goto(m, ParseBlockMappingFirstKey))
    else if (anchor.Some? && |anchor.value| > 0) || |tag| > 0 then
      if |m.states| == 0 then Panic else
      Produced(Scalar(startMark, endMark, anchor, tag, [], implicit, false, Plain), PopState(m))
    else
      Failed("did not find expected node content")
  }

  function ReadNode(m: Machine, block: bool, indentless: bool): Outcome {
    if !HasToken(m) then Failed(NO_TOKEN)
    else if Peek(m).typ.AliasToken? then
      if |m.states| == 0 then Panic else
      Produced(Alias(Peek(m).startMark, Peek(m).endMark, Peek(m).value), Skip(PopState(m)))
    else
      var p := ReadProperties(m);
      if p.BadProperties? then Failed(p.problem)
      else if !HasToken(p.m) then Failed(NO_TOKEN)
      else ReadContent(p, block, indentless)
  }

  // ----- Stream and documents -----

  function StreamStartStep(m: Machine): Outcome {
    if !HasToken(m) then Failed(NO_TOKEN)
    else if !Peek(m).typ.StreamStartToken? then Failed("did not find expected <stream-start>")
    else
      var t := Peek(m);
      Produced(StreamStart(t.startMark, t.endMark, t.encoding), Skip(Goto(m, ParseImplicitDocumentStart)))
  }

  /** Past extra document end indicators. */
  function SkipDocumentEnds(m: Machine): (m': Machine)
    ensures m.pos <= m'.pos && m'.tokens == m.tokens
    decreases |m.tokens| - m.pos
  {
    if HasToken(m) && Peek(m).typ.DocumentEndToken? then SkipDocumentEnds(Skip(m)) else m
  }

  function AppendTagDirective(ds: seq<TagDirective>, d: TagDirective, allowDuplicates: bool): Option<seq<TagDirective>> {
    if exists i :: 0 <= i < |ds| && ds[i].handle == d.handle then
      if allowDuplicates then Some(ds) else None
    else
      Some(ds + [d])
  }

  function AddDefaultTags(ds: seq<TagDirective>): seq<TagDirective> {
    var ds1 := AppendTagDirective(ds, TagDirective([33], [33]), true).value;
    AppendTagDirective(ds1, TagDirective([33, 33], CORE_TAG_PREFIX), true).value
  }

  datatype Directives = Directives(m: Machine, version: Option<Version>, tags: seq<TagDirective>) | BadDirectives(problem: string)

  function ReadDirectives(m: Machine, version: Option<Version>, tags: seq<TagDirective>): Directives
    decreases |m.tokens| - m.pos
  {
    if !HasToken(m) then BadDirectives(NO_TOKEN)
    else if Peek(m).typ.VersionDirectiveToken? then
      var t := Peek(m);
      if version.Some? then BadDirectives("found duplicate %YAML directive")
      else if t.major != 1 || t.minor != 1 then BadDirectives("found incompatible YAML document")
      else ReadDirectives(Skip(m), Some(Version(t.major, t.minor)), tags)
    else if Peek(m).typ.TagDirectiveToken? then
      var d := TagDirective(Peek(m).value, Peek(m).prefix);
      var added := AppendTagDirective(m.tagDirectives, d, false);
      if added.None? then BadDirectives("found duplicate %TAG directive")
      else ReadDirectives(Skip(m.(tagDirectives := added.value)), version, tags + [d])
    else
      Directives(m.(tagDirectives := AddDefaultTags(m.tagDirectives)), version, tags)
  }

  function DocumentStartStep(m: Machine, implicit: bool): Outcome {
    DocumentStartAt(if implicit then m else SkipDocumentEnds(m), implicit)
  }

  function DocumentStartAt(m: Machine, implicit: bool): Outcome {
    if !HasToken(m) then Failed(NO_TOKEN)
    else if Peek(m).typ.StreamEndToken? then
      Produced(StreamEnd(Peek(m).startMark, Peek(m).endMark), Skip(Goto(m, ParseEnd)))
    else DocumentStartAfter(Peek(m), implicit, ReadDirectives(m, None, []))
  }

  /** The start of a document whose first token is `t`, after its directives. */
  function DocumentStartAfter(t: Token, implicit: bool, d: Directives): Outcome {
    if d.BadDirectives? then Failed(d.problem)
    else if implicit && !t.typ.VersionDirectiveToken? && !t.typ.TagDirectiveToken? && !t.typ.DocumentStartToken? then
      Produced(DocumentStart(t.startMark, t.endMark, None, [], false),
               Goto(PushState(d.m, ParseDocumentEnd), ParseBlockNode))
    else if !HasToken(d.m) then Failed(NO_TOKEN)
    else if !Peek(d.m).typ.DocumentStartToken? then Failed("did not find expected <document start>")
    else
      Produced(DocumentStart(t.startMark, Peek(d.m).endMark, d.version, d.tags, false),
               Skip(Goto(PushState(d.m, ParseDocumentEnd), ParseDocumentContent)))
  }

  function DocumentContentStep(m: Machine): Outcome {
    if !HasToken(m) then Failed(NO_TOKEN)
    else
      var typ := Peek(m).typ;
      if typ.VersionDirectiveToken? || typ.TagDirectiveToken? || typ.DocumentStartToken? || typ.DocumentEndToken?
         || typ.StreamEndToken? then
        if |m.states| == 0 then Panic else Produced(EmptyScalar(Peek(m).startMark), PopState(m))
      else
        ReadNode(m, true, false)
  }

  function DocumentEndStep(m: Machine): Outcome {
    if !HasToken(m) then Failed(NO_TOKEN)
    else
      var t := Peek(m);
      var m1 := Goto(m.(tagDirectives := []), ParseDocumentStart);
      if t.typ.DocumentEndToken? then
        Produced(DocumentEnd(t.startMark, t.endMark, false), Skip(m1))
      else
        Produced(DocumentEnd(t.startMark, t.startMark, true), m1)
  }

  // ----- Collections -----

  /** The FIRST states push the mark of their opening token and consume it, without
      checking that there is one. */
  function Opened(m: Machine, first: bool): Option<Machine> {
    if !first then Some(m)
    else if !HasToken(m) then None
    else Some(Skip(m.(marks := m.marks + [Peek(m).startMark])))
  }

  function NodeThen(m: Machine, cont: State, block: bool, indentless: bool): Outcome {
    ReadNode(PushState(m, cont), block, indentless)
  }

  function EmptyThen(m: Machine, cont: State, mark: Mark): Outcome {
    Produced(EmptyScalar(mark), Goto(m, cont))
  }

  /** The END token of a collection, which still has its mark on the stack. */
  function Close(m: Machine, event: Event): Outcome
    requires HasToken(m)
  {
    if |m.states| == 0 || |m.marks| == 0 then Panic else Produced(event, Skip(DropMark(PopState(m))))
  }

  /** Reports an error in the collection whose mark is on top. */
  function FailInside(m: Machine, problem: string): Outcome {
    if |m.marks| == 0 then Panic else Failed(problem)
  }

  function BlockSequenceEntryStep(m0: Machine, first: bool): Outcome {
    var entry := Opened(m0, first);
    if entry.None? then Panic else
    var m := entry.value;
    if !HasToken(m) then Failed(NO_TOKEN)
    else if Peek(m).typ.BlockEntryToken? then
      var m1 := Skip(m);
      if !HasToken(m1) then Failed(NO_TOKEN)
      else if !Peek(m1).typ.BlockEntryToken? && !Peek(m1).typ.BlockEndToken? then
        NodeThen(m1, ParseBlockSequenceEntry, true, false)
      else EmptyThen(m1, ParseBlockSequenceEntry, Peek(m).endMark)
    else if Peek(m).typ.BlockEndToken? then
      Close(m, SequenceEnd(Peek(m).startMark, Peek(m).endMark))
    else FailInside(m, "did not find expected '-' indicator")
  }

  function IndentlessSequenceEntryStep(m: Machine): Outcome {
    if !HasToken(m) then Failed(NO_TOKEN)
    else if Peek(m).typ.BlockEntryToken? then
      var m1 := Skip(m);
      if !HasToken(m1) then Failed(NO_TOKEN)
      else if !Peek(m1).typ.BlockEntryToken? && !Peek(m1).typ.KeyToken? && !Peek(m1).typ.ValueToken?
              && !Peek(m1).typ.BlockEndToken? then
        NodeThen(m1, ParseIndentlessSequenceEntry, true, false)
      else EmptyThen(m1, ParseIndentlessSequenceEntry, Peek(m).endMark)
    else if |m.states| == 0 then Panic
    else Produced(SequenceEnd(Peek(m).startMark, Peek(m).startMark), PopState(m))
  }

  function BlockMappingKeyStep(m0: Machine, first: bool): Outcome {
    var entry := Opened(m0, first);
    if entry.None? then Panic else
    var m := entry.value;
    if !HasToken(m) then Failed(NO_TOKEN)
    else if Peek(m).typ.KeyToken? then
      var m1 := Skip(m);
      if !HasToken(m1) then Failed(NO_TOKEN)
      else if !Peek(m1).typ.KeyToken? && !Peek(m1).typ.ValueToken? && !Peek(m1).typ.BlockEndToken? then
        NodeThen(m1, ParseBlockMappingValue, true, true)
      else EmptyThen(m1, ParseBlockMappingValue, Peek(m).endMark)
    else if Peek(m).typ.BlockEndToken? then
      Close(m, MappingEnd(Peek(m).startMark, Peek(m).endMark))
    else FailInside(m, "did not find expected key")
  }

  function BlockMappingValueStep(m: Machine): Outcome {
    if !HasToken(m) then Failed(NO_TOKEN)
    else if Peek(m).typ.ValueToken? then
      var m1 := Skip(m);
      if !HasToken(m1) then Failed(NO_TOKEN)
      else if !Peek(m1).typ.KeyToken? && !Peek(m1).typ.ValueToken? && !Peek(m1).typ.BlockEndToken? then
        NodeThen(m1, ParseBlockMappingKey, true, true)
      else EmptyThen(m1, ParseBlockMappingKey, Peek(m).endMark)
    else EmptyThen(m, ParseBlockMappingKey, Peek(m).startMark)
  }

  /** Past the separator that every entry of a flow collection but the first needs. */
  function Separator(m: Machine, first: bool): Option<Machine>
    requires HasToken(m)
  {
    if first then Some(m) else if Peek(m).typ.FlowEntryToken? then Some(Skip(m)) else None
  }

  function FlowSequenceEntryStep(m0: Machine, first: bool): Outcome {
    var entry := Opened(m0, first);
    if entry.None? then Panic else
    var m := entry.value;
    if !HasToken(m) then Failed(NO_TOKEN)
    else if Peek(m).typ.FlowSequenceEndToken? then
      Close(m, SequenceEnd(Peek(m).startMark, Peek(m).endMark))
    else
      var separated := Separator(m, first);
      if separated.None? then FailInside(m, "did not find expected ',' or ']'") else
      var m1 := separated.value;
      if !HasToken(m1) then Failed(NO_TOKEN)
      else if Peek(m1).typ.KeyToken? then
        Produced(MappingStart(Peek(m1).startMark, Peek(m1).endMark, None, [], true, FlowStyle),
                 Skip(Goto(m1, ParseFlowSequenceEntryMappingKey)))
      else if !Peek(m1).typ.FlowSequenceEndToken? then
        NodeThen(m1, ParseFlowSequenceEntry, false, false)
      else Close(m1, SequenceEnd(Peek(m1).startMark, Peek(m1).endMark))
  }

  function FlowSequenceEntryMappingKeyStep(m: Machine): Outcome {
    if !HasToken(m) then Failed(NO_TOKEN)
    else if !Peek(m).typ.ValueToken? && !Peek(m).typ.FlowEntryToken? && !Peek(m).typ.FlowSequenceEndToken? then
      NodeThen(m, ParseFlowSequenceEntryMappingValue, false, false)
    else EmptyThen(Skip(m), ParseFlowSequenceEntryMappingValue, Peek(m).endMark)
  }

  function FlowSequenceEntryMappingValueStep(m: Machine): Outcome {
    if !HasToken(m) then Failed(NO_TOKEN)
    else if Peek(m).typ.ValueToken? then
      var m1 := Skip(m);
      if !HasToken(m1) then Failed(NO_TOKEN)
      else if !Peek(m1).typ.FlowEntryToken? && !Peek(m1).typ.FlowSequenceEndToken? then
        NodeThen(m1, ParseFlowSequenceEntryMappingEnd, false, false)
      else EmptyThen(m1, ParseFlowSequenceEntryMappingEnd, Peek(m).startMark)
    else EmptyThen(m, ParseFlowSequenceEntryMappingEnd, Peek(m).startMark)
  }

  function FlowSequenceEntryMappingEndStep(m: Machine): Outcome {
    if !HasToken(m) then Failed(NO_TOKEN)
    else Produced(MappingEnd(Peek(m).startMark, Peek(m).startMark), Goto(m, ParseFlowSequenceEntry))
  }

  function FlowMappingKeyStep(m0: Machine, first: bool): Outcome {
    var entry := Opened(m0, first);
    if entry.None? then Panic else
    var m := entry.value;
    if !HasToken(m) then Failed(NO_TOKEN)
    else if Peek(m).typ.FlowMappingEndToken? then
      Close(m, MappingEnd(Peek(m).startMark, Peek(m).endMark))
    else
      var separated := Separator(m, first);
      if separated.None? then FailInside(m, "did not find expected ',' or '}'") else
      FlowMappingEntry(separated.value)
  }

  /** An entry of a flow mapping, or its end after a separator. */
  function FlowMappingEntry(m1: Machine): Outcome {
    if !HasToken(m1) then Failed(NO_TOKEN)
    else if Peek(m1).typ.KeyToken? then
      var m2 := Skip(m1);
      if !HasToken(m2) then Failed(NO_TOKEN)
      else if !Peek(m2).typ.ValueToken? && !Peek(m2).typ.FlowEntryToken? && !Peek(m2).typ.FlowMappingEndToken? then
        NodeThen(m2, ParseFlowMappingValue, false, false)
      else EmptyThen(m2, ParseFlowMappingValue, Peek(m2).startMark)
    else if !Peek(m1).typ.FlowMappingEndToken? then
      NodeThen(m1, ParseFlowMappingEmptyValue, false, false)
    else Close(m1, MappingEnd(Peek(m1).startMark, Peek(m1).endMark))
  }

  function FlowMappingValueStep(m: Machine, empty: bool): Outcome {
    if !HasToken(m) then Failed(NO_TOKEN)
    else if empty then EmptyThen(m, ParseFlowMappingKey, Peek(m).startMark)
    else if Peek(m).typ.ValueToken? then
      var m1 := Skip(m);
      if !HasToken(m1) then Failed(NO_TOKEN)
      else if !Peek(m1).typ.FlowEntryToken? && !Peek(m1).typ.FlowMappingEndToken? then
        NodeThen(m1, ParseFlowMappingKey, false, false)
      else EmptyThen(m1, ParseFlowMappingKey, Peek(m1).startMark)
    else EmptyThen(m, ParseFlowMappingKey, Peek(m).startMark)
  }

  /** The state dispatcher. */
  function Step(m: Machine): Outcome {
    match m.state
    case ParseStreamStart => StreamStartStep(m)
    case ParseImplicitDocumentStart => DocumentStartStep(m, true)
    case ParseDocumentStart => DocumentStartStep(m, false)
    case ParseDocumentContent => DocumentContentStep(m)
    case ParseDocumentEnd => DocumentEndStep(m)
    case ParseBlockNode => ReadNode(m, true, false)
    case ParseBlockNodeOrIndentlessSequence => ReadNode(m, true, true)
    case ParseFlowNode => ReadNode(m, false, false)
    case ParseBlockSequenceFirstEntry => BlockSequenceEntryStep(m, true)
    case ParseBlockSequenceEntry => BlockSequenceEntryStep(m, false)
    case ParseIndentlessSequenceEntry => IndentlessSequenceEntryStep(m)
    case ParseBlockMappingFirstKey => BlockMappingKeyStep(m, true)
    case ParseBlockMappingKey => BlockMappingKeyStep(m, false)
    case ParseBlockMappingValue => BlockMappingValueStep(m)
    case ParseFlowSequenceFirstEntry => FlowSequenceEntryStep(m, true)
    case ParseFlowSequenceEntry => FlowSequenceEntryStep(m, false)
    case ParseFlowSequenceEntryMappingKey => FlowSequenceEntryMappingKeyStep(m)
    case ParseFlowSequenceEntryMappingValue => FlowSequenceEntryMappingValueStep(m)
    case ParseFlowSequenceEntryMappingEnd => FlowSequenceEntryMappingEndStep(m)
    case ParseFlowMappingFirstKey => FlowMappingKeyStep(m, true)
    case ParseFlowMappingKey => FlowMappingKeyStep(m, false)
    case ParseFlowMappingValue => FlowMappingValueStep(m, false)
    case ParseFlowMappingEmptyValue => FlowMappingValueStep(m, true)
    case ParseEnd => Panic
  }

  // ----- What the states mean -----

  /** The brackets open when state `s` becomes current with `below` open underneath. */
  ghost function Enter(below: Stack, s: State): Stack {
    match s
    case ParseDocumentEnd => Push(below, DocDone)
    case ParseBlockSequenceFirstEntry => Push(below, InSeq)
    case ParseBlockSequenceEntry => Push(below, InSeq)
    case ParseIndentlessSequenceEntry => Push(below, InSeq)
    case ParseBlockMappingFirstKey => Push(below, MapKey)
    case ParseBlockMappingKey => Push(below, MapKey)
    case ParseBlockMappingValue => Push(below, MapValue)
    case ParseFlowSequenceFirstEntry => Push(below, InSeq)
    case ParseFlowSequenceEntry => Push(below, InSeq)
    case ParseFlowSequenceEntryMappingKey => Push(Push(below, InSeq), MapKey)
    case ParseFlowSequenceEntryMappingValue => Push(Push(below, InSeq), MapValue)
    case ParseFlowSequenceEntryMappingEnd => Push(Push(below, InSeq), MapKey)
    case ParseFlowMappingFirstKey => Push(below, MapKey)
    case ParseFlowMappingKey => Push(below, MapKey)
    case ParseFlowMappingValue => Push(below, MapValue)
    case ParseFlowMappingEmptyValue => Push(below, MapValue)
    case _ => below
  }

  /** The brackets that the waiting states hold open. */
  ghost function Waiting(states: seq<State>): Stack {
    if |states| == 0 then STREAM else Enter(Waiting(states[..|states| - 1]), states[|states| - 1])
  }

  /** States that may wait on the stack for a node to be finished. */
  ghost predicate Resumes(s: State) {
    || s.ParseBlockSequenceEntry? || s.ParseIndentlessSequenceEntry?
    || s.ParseBlockMappingKey? || s.ParseBlockMappingValue?
    || s.ParseFlowSequenceEntry? || s.ParseFlowSequenceEntryMappingValue?
    || s.ParseFlowSequenceEntryMappingEnd?
    || s.ParseFlowMappingKey? || s.ParseFlowMappingValue? || s.ParseFlowMappingEmptyValue?
  }

  /** States that are current inside a document, with brackets open. */
  ghost predicate Inside(s: State) {
    || Resumes(s) || IsFirst(s) || s.ParseFlowSequenceEntryMappingKey?
  }

  ghost predicate IsFirst(s: State) {
    || s.ParseBlockSequenceFirstEntry? || s.ParseBlockMappingFirstKey?
    || s.ParseFlowSequenceFirstEntry? || s.ParseFlowMappingFirstKey?
  }

  /** The token a FIRST state takes for granted. */
  ghost function FirstToken(s: State): TokenType
    requires IsFirst(s)
  {
    match s
    case ParseBlockSequenceFirstEntry => BlockSequenceStartToken
    case ParseBlockMappingFirstKey => BlockMappingStartToken
    case ParseFlowSequenceFirstEntry => FlowSequenceStartToken
    case ParseFlowMappingFirstKey => FlowMappingStartToken
  }

  /** How many marks a state has pushed and not yet popped. */
  ghost function MarkOf(s: State): nat {
    if (Resumes(s) || s.ParseFlowSequenceEntryMappingKey?) && !s.ParseIndentlessSequenceEntry? then 1 else 0
  }

  ghost function MarksOf(states: seq<State>): nat {
    if |states| == 0 then 0 else MarksOf(states[..|states| - 1]) + MarkOf(states[|states| - 1])
  }

  /** A stack of states the parser can have: a document at the bottom, collections
      above it, and an indentless sequence only as a block mapping's key or value. */
  ghost predicate StackOk(states: seq<State>) {
    && |states| > 0
    && states[0].ParseDocumentEnd?
    && (forall i | 1 <= i < |states| :: Resumes(states[i]))
    && (forall i, j | 0 <= i < j < |states| && j == i + 1 :: states[j].ParseIndentlessSequenceEntry? ==> HoldsIndentless(states[i]))
  }

  ghost predicate HoldsIndentless(s: State) {
    s.ParseBlockMappingKey? || s.ParseBlockMappingValue?
  }

  /** How many more events can be produced before a token must be consumed. */
  ghost function Rank(s: State): nat
    ensures Rank(s) <= 2
  {
    match s
    case ParseImplicitDocumentStart => 2
    case ParseDocumentContent => 2
    case ParseIndentlessSequenceEntry => 2
    case ParseFlowSequenceEntryMappingValue => 2
    case ParseBlockNode => 1
    case ParseDocumentEnd => 1
    case ParseBlockMappingValue => 1
    case ParseFlowSequenceEntryMappingKey => 1
    case ParseFlowSequenceEntryMappingEnd => 1
    case ParseFlowMappingValue => 1
    case ParseFlowMappingEmptyValue => 1
    case _ => 0
  }

  /** The brackets open when `states` is the stack and `state` is current. */
  ghost function ShapeOf(states: seq<State>, state: State): Shape {
    if state.ParseStreamStart? then Start
    else if state.ParseEnd? then Closed
    else if state.ParseDocumentContent? || state.ParseBlockNode? then Open(Push(STREAM, DocNode))
    else Open(Enter(Waiting(states), state))
  }

  /** The control part of the parser's invariant. */
  ghost predicate ControlOk(states: seq<State>, state: State) {
    if state.ParseDocumentContent? || state.ParseBlockNode? then
      |states| == 1 && states[0].ParseDocumentEnd?
    else if Inside(state) then
      StackOk(states) && (state.ParseIndentlessSequenceEntry? ==> HoldsIndentless(states[|states| - 1]))
    else
      && |states| == 0
      && (state.ParseStreamStart? || state.ParseImplicitDocumentStart? || state.ParseDocumentStart?
          || state.ParseDocumentEnd? || state.ParseEnd?)
  }

  // ----- The invariant, and that every step keeps it -----

  ghost function CurrentShape(m: Machine): Shape {
    ShapeOf(m.states, m.state)
  }

  /** How many more events there can be, given the tokens left. */
  ghost function Budget(m: Machine): int {
    3 * (|m.tokens| - m.pos) + Rank(m.state)
  }

  /** What holds between calls as long as no error has been reported. */
  ghost predicate Good(m: Machine) {
    && m.pos <= |m.tokens|
    && ControlOk(m.states, m.state)
    && |m.marks| == MarksOf(m.states) + MarkOf(m.state)
    && (IsFirst(m.state) ==> HasToken(m) && Peek(m).typ == FirstToken(m.state))
    && (m.ended <==> m.state.ParseEnd?)
  }

  /** What a node is parsed in: the state to resume afterwards is on top of the stack. */
  ghost predicate Ready(m: Machine, indentless: bool) {
    && m.pos <= |m.tokens| && !m.ended
    && StackOk(m.states) && |m.marks| == MarksOf(m.states)
    && (indentless ==> HoldsIndentless(m.states[|m.states| - 1]))
  }

  /** `event` delivers a node to the innermost bracket, so that the stack becomes
      `received`, and opens the node's own bracket if it has one. */
  ghost predicate DeliversNode(received: Stack, event: Event, after: Shape) {
    || ((event.Scalar? || event.Alias?) && after == Open(received))
    || (event.SequenceStart? && after == Open(Push(received, InSeq)))
    || (event.MappingStart? && after == Open(Push(received, MapKey)))
  }

  /** No panic; and a node, or its opening bracket, if there is an event. */
  ghost predicate NodeOk(received: Stack, o: Outcome, tokens: seq<Token>, budget: int) {
    match o
    case Produced(event, m') =>
      Good(m') && m'.tokens == tokens && DeliversNode(received, event, CurrentShape(m')) && Budget(m') <= budget
    case Failed(_) => true
    case Panic => false
  }

  /** No panic; and an event takes control where the checker goes and costs budget. */
  ghost predicate StepHolds(m: Machine, o: Outcome) {
    match o
    case Produced(event, m') =>
      && Good(m') && m'.tokens == m.tokens
      && StepEvent(CurrentShape(m), event) == CurrentShape(m')
      && Budget(m') < Budget(m)
    case Failed(_) => true
    case Panic => false
  }

  /** `StepHolds`, met by a proof only where it asks for it. */
  ghost predicate StepOk(m: Machine, o: Outcome) {
    forall u | u == m :: StepHolds(u, o)
  }

  lemma FailedOk(m: Machine, o: Outcome)
    requires o.Failed?
    ensures StepOk(m, o)
  {
    assert StepHolds(m, o);
  }

  /** Popping the stack resumes the state on top with everything it relies on. */
  lemma PopGood(m: Machine)
    requires Ready(m, false)
    ensures Good(PopState(m)) && CurrentShape(PopState(m)) == Open(Waiting(m.states)) && !IsFirst(PopState(m).state)
    ensures !PopState(m).state.ParseEnd?
  {
    var n := |m.states| - 1;
    if n > 0 {
      assert StackOk(m.states[..n]);
    }
  }

  lemma FirstOk(m: Machine, first: State, event: Event)
    requires Ready(m, false) && IsFirst(first) && HasToken(m) && Peek(m).typ == FirstToken(first)
    requires if Enter(Empty, first) == Push(Empty, InSeq) then event.SequenceStart? else event.MappingStart?
    ensures NodeOk(Waiting(m.states), Produced(event, Goto(m, first)), m.tokens, 3 * (|m.tokens| - m.pos))
  {
  }

  lemma IndentlessOk(m: Machine, event: Event)
    requires Ready(m, true) && event.SequenceStart?
    ensures NodeOk(Waiting(m.states), Produced(event, Goto(m, ParseIndentlessSequenceEntry)), m.tokens,
                   3 * (|m.tokens| - m.pos) + 2)
  {
  }

  lemma FinishedOk(m: Machine, event: Event)
    requires Ready(m, false) && (event.Scalar? || event.Alias?)
    ensures NodeOk(Waiting(m.states), Produced(event, PopState(m)), m.tokens, 3 * (|m.tokens| - m.pos) + 2)
    ensures HasToken(m) && !Peek(m).typ.StreamEndToken? ==>
              NodeOk(Waiting(m.states), Produced(event, Skip(PopState(m))), m.tokens, 3 * (|m.tokens| - m.pos))
  {
    PopGood(m);
  }

  lemma ContentOk(p: Properties, block: bool, indentless: bool)
    requires p.Properties? && HasToken(p.m) && Ready(p.m, indentless)
    ensures NodeOk(Waiting(p.m.states), ReadContent(p, block, indentless), p.m.tokens,
                   3 * (|p.m.tokens| - p.m.pos) + (if indentless || p.anchor.Some? || p.tag != [] then 2 else 0))
  {
    var m := p.m;
    var typ := Peek(m).typ;
    var o := ReadContent(p, block, indentless);
    if o.Produced? {
      if indentless && typ.BlockEntryToken? {
        IndentlessOk(m, o.event);
      } else if o.event.Scalar? {
        FinishedOk(m, o.event);
      } else {
        FirstOk(m, o.next.state, o.event);
      }
    }
  }

  lemma PropertiesAdvance(m: Machine)
    requires HasToken(m) && !m.ended
    ensures var p := ReadProperties(m); p.Properties? ==>
      && HasToken(p.m) && p.m == m.(pos := p.m.pos) && m.pos <= p.m.pos
      && (p.anchor.Some? || p.tag != [] ==> p.m.pos > m.pos)
  {
  }

  lemma NodeIsOk(m: Machine, block: bool, indentless: bool)
    requires Ready(m, indentless)
    ensures NodeOk(Waiting(m.states), ReadNode(m, block, indentless), m.tokens,
                   3 * (|m.tokens| - m.pos) + (if indentless then 2 else 0))
  {
    if HasToken(m) {
      if Peek(m).typ.AliasToken? {
        PopGood(m);
      } else {
        PropertiesAdvance(m);
        var p := ReadProperties(m);
        if p.Properties? {
          ContentOk(p, block, indentless);
        }
      }
    }
  }

  // Outside documents.

  lemma SkipDocumentEndsKeeps(m: Machine)
    requires !m.ended
    ensures var m' := SkipDocumentEnds(m); m' == m.(pos := m'.pos) && m'.pos <= (if m.pos <= |m.tokens| then |m.tokens| else m.pos)
    decreases |m.tokens| - m.pos
  {
    if HasToken(m) && Peek(m).typ.DocumentEndToken? {
      SkipDocumentEndsKeeps(Skip(m));
    }
  }

  lemma ReadDirectivesKeeps(m: Machine, version: Option<Version>, tags: seq<TagDirective>)
    requires !m.ended
    ensures var d := ReadDirectives(m, version, tags); d.Directives? ==>
      && d.m == m.(pos := d.m.pos, tagDirectives := d.m.tagDirectives)
      && m.pos <= d.m.pos && HasToken(d.m)
    decreases |m.tokens| - m.pos
  {
    if HasToken(m) {
      var t := Peek(m);
      if t.typ.VersionDirectiveToken? {
        if version.None? && t.major == 1 && t.minor == 1 {
          ReadDirectivesKeeps(Skip(m), Some(Version(t.major, t.minor)), tags);
        }
      } else if t.typ.TagDirectiveToken? {
        var d := TagDirective(t.value, t.prefix);
        var added := AppendTagDirective(m.tagDirectives, d, false);
        if added.Some? {
          ReadDirectivesKeeps(Skip(m.(tagDirectives := added.value)), version, tags + [d]);
        }
      }
    }
  }

  lemma DocumentOpens(m0: Machine, m: Machine, content: State, event: Event)
    requires |m.states| == 0 && |m.marks| == 0 && m.pos <= |m.tokens| && !m.ended && m.tokens == m0.tokens
    requires content.ParseBlockNode? || content.ParseDocumentContent?
    requires m0.state.ParseImplicitDocumentStart? || m0.state.ParseDocumentStart?
    requires |m0.states| == 0 && event.DocumentStart?
    requires m.pos > m0.pos || (m.pos == m0.pos && Rank(m0.state) > Rank(content))
    ensures StepOk(m0, Produced(event, Goto(PushState(m, ParseDocumentEnd), content)))
  {
    var m' := Goto(PushState(m, ParseDocumentEnd), content);
    assert m'.states == [ParseDocumentEnd] && m'.state == content && !IsFirst(content);
    assert Good(m');
    assert StepHolds(m0, Produced(event, m'));
  }

  lemma StreamEnds(m0: Machine, m: Machine, event: Event)
    requires Good(m0) && (m0.state.ParseImplicitDocumentStart? || m0.state.ParseDocumentStart?)
    requires m == m0.(pos := m.pos) && m0.pos <= m.pos && HasToken(m) && Peek(m).typ.StreamEndToken? && event.StreamEnd?
    ensures StepOk(m0, Produced(event, Skip(Goto(m, ParseEnd))))
  {
    assert StepHolds(m0, Produced(event, Skip(Goto(m, ParseEnd))));
  }

  lemma DocumentStartOk(m: Machine, implicit: bool)
    requires Good(m) && if implicit then m.state.ParseImplicitDocumentStart? else m.state.ParseDocumentStart?
    ensures StepOk(m, DocumentStartStep(m, implicit))
  {
    SkipDocumentEndsKeeps(m);
    DocumentStartAtOk(m, if implicit then m else SkipDocumentEnds(m), implicit);
  }

  /** Between documents nothing is open. */
  ghost predicate BetweenDocuments(m: Machine) {
    |m.states| == 0 && |m.marks| == 0 && !m.ended && m.pos <= |m.tokens|
  }

  lemma NothingOpen(m: Machine)
    requires Good(m) && (m.state.ParseImplicitDocumentStart? || m.state.ParseDocumentStart?)
    ensures BetweenDocuments(m)
  {
  }

  lemma DocumentStartAtOk(m0: Machine, m: Machine, implicit: bool)
    requires Good(m0) && if implicit then m0.state.ParseImplicitDocumentStart? else m0.state.ParseDocumentStart?
    requires m == m0.(pos := m.pos) && m0.pos <= m.pos
    ensures StepOk(m0, DocumentStartAt(m, implicit))
  {
    if !HasToken(m) {
      FailedOk(m0, DocumentStartAt(m, implicit));
    } else if Peek(m).typ.StreamEndToken? {
      StreamEnds(m0, m, StreamEnd(Peek(m).startMark, Peek(m).endMark));
    } else {
      NothingOpen(m0);
      ReadDirectivesKeeps(m, None, []);
      DocumentStartAfterOk(m0, Peek(m), implicit, ReadDirectives(m, None, []));
    }
  }

  lemma DocumentStartAfterOk(m0: Machine, t: Token, implicit: bool, d: Directives)
    requires BetweenDocuments(m0) && if implicit then m0.state.ParseImplicitDocumentStart? else m0.state.ParseDocumentStart?
    requires d.Directives? ==>
      d.m == m0.(pos := d.m.pos, tagDirectives := d.m.tagDirectives) && m0.pos <= d.m.pos && HasToken(d.m)
    ensures StepOk(m0, DocumentStartAfter(t, implicit, d))
  {
    var o := DocumentStartAfter(t, implicit, d);
    if o.Failed? {
      FailedOk(m0, o);
    } else if implicit && !t.typ.VersionDirectiveToken? && !t.typ.TagDirectiveToken? && !t.typ.DocumentStartToken? {
      DocumentOpens(m0, d.m, ParseBlockNode, o.event);
    } else {
      SkipCommutes(d.m);
      DocumentOpens(m0, Skip(d.m), ParseDocumentContent, o.event);
    }
  }

  lemma SkipCommutes(m: Machine)
    requires HasToken(m) && Peek(m).typ.DocumentStartToken? && !m.ended
    ensures Skip(Goto(PushState(m, ParseDocumentEnd), ParseDocumentContent)) ==
            Goto(PushState(Skip(m), ParseDocumentEnd), ParseDocumentContent)
    ensures Skip(m) == m.(pos := m.pos + 1)
  {
  }

  /** A document's only node: the document bracket below it is the one on the stack. */
  lemma DocumentNodeOk(m: Machine)
    requires Good(m) && (m.state.ParseBlockNode? || m.state.ParseDocumentContent?)
    ensures StepOk(m, ReadNode(m, true, false))
    ensures m.state.ParseDocumentContent? ==> StepOk(m, DocumentContentStep(m))
  {
    assert Waiting(m.states[..0]) == STREAM;
    NodeIsOk(m, true, false);
    PopGood(m);
    assert StepHolds(m, ReadNode(m, true, false));
    if m.state.ParseDocumentContent? {
      assert StepHolds(m, DocumentContentStep(m));
    }
  }

  lemma StreamStartOk(m: Machine)
    requires Good(m) && m.state.ParseStreamStart?
    ensures StepOk(m, StreamStartStep(m))
  {
    assert StepHolds(m, StreamStartStep(m));
  }

  lemma DocumentEndOk(m: Machine)
    requires Good(m) && m.state.ParseDocumentEnd?
    ensures StepOk(m, DocumentEndStep(m))
  {
    assert StepHolds(m, DocumentEndStep(m));
  }

  // Inside collections.

  /** Inside a collection, state `s` hands over to `cont` when it delivers a node. */
  ghost predicate HandsOver(s: State, cont: State) {
    match cont
    case ParseBlockSequenceEntry => s.ParseBlockSequenceFirstEntry? || s.ParseBlockSequenceEntry?
    case ParseIndentlessSequenceEntry => s.ParseIndentlessSequenceEntry?
    case ParseBlockMappingValue => s.ParseBlockMappingFirstKey? || s.ParseBlockMappingKey?
    case ParseBlockMappingKey => s.ParseBlockMappingValue?
    case ParseFlowSequenceEntry => s.ParseFlowSequenceFirstEntry? || s.ParseFlowSequenceEntry?
    case ParseFlowSequenceEntryMappingValue => s.ParseFlowSequenceEntryMappingKey?
    case ParseFlowSequenceEntryMappingEnd => s.ParseFlowSequenceEntryMappingValue?
    case ParseFlowMappingValue => s.ParseFlowMappingFirstKey? || s.ParseFlowMappingKey?
    case ParseFlowMappingEmptyValue => s.ParseFlowMappingFirstKey? || s.ParseFlowMappingKey?
    case ParseFlowMappingKey => s.ParseFlowMappingValue? || s.ParseFlowMappingEmptyValue?
    case _ => false
  }

  /** `m` is a moment inside the handling of the state that was current in `m0`: the
      opening mark, if there is one, is on the stack of marks. */
  ghost predicate Handling(m0: Machine, m: Machine) {
    && Good(m0) && Inside(m0.state)
    && m.tokens == m0.tokens && m0.pos <= m.pos <= |m.tokens| && !m.ended
    && m.state == m0.state && m.states == m0.states
    && |m.marks| == MarksOf(m.states) + (if m0.state.ParseIndentlessSequenceEntry? then 0 else 1)
  }

  lemma HandoverShape(below: Stack, s: State, cont: State, event: Event, after: Shape)
    requires HandsOver(s, cont) && DeliversNode(Enter(below, cont), event, after)
    ensures StepEvent(Open(Enter(below, s)), event) == after
  {
  }

  lemma HandoverReady(m0: Machine, m: Machine, cont: State)
    requires Handling(m0, m) && HandsOver(m0.state, cont)
    ensures Ready(PushState(m, cont), HoldsIndentless(cont))
    ensures Waiting(m.states + [cont]) == Enter(Waiting(m.states), cont)
  {
    assert (m.states + [cont])[..|m.states|] == m.states;
  }

  lemma NodeThenOk(m0: Machine, m: Machine, cont: State, block: bool, indentless: bool)
    requires Handling(m0, m) && HandsOver(m0.state, cont)
    requires indentless ==> HoldsIndentless(cont) && m.pos > m0.pos
    requires m.pos > m0.pos || Rank(m0.state) > 0
    ensures StepOk(m0, NodeThen(m, cont, block, indentless))
  {
    HandoverReady(m0, m, cont);
    var pushed := PushState(m, cont);
    NodeIsOk(pushed, block, indentless);
    var o := ReadNode(pushed, block, indentless);
    if o.Produced? {
      HandoverShape(Waiting(m.states), m0.state, cont, o.event, CurrentShape(o.next));
    }
    assert StepHolds(m0, NodeThen(m, cont, block, indentless));
  }

  lemma EmptyThenOk(m0: Machine, m: Machine, cont: State, mark: Mark)
    requires Handling(m0, m) && HandsOver(m0.state, cont)
    requires m.pos > m0.pos || Rank(m0.state) > Rank(cont)
    ensures StepOk(m0, EmptyThen(m, cont, mark))
  {
    HandoverReady(m0, m, cont);
    HandoverShape(Waiting(m.states), m0.state, cont, EmptyScalar(mark), CurrentShape(Goto(m, cont)));
    assert StepHolds(m0, EmptyThen(m, cont, mark));
  }

  /** The state works on a collection of its own, not on a pair inside a flow sequence. */
  ghost predicate Works(s: State, top: Frame) {
    Inside(s) && Enter(Empty, s) == Push(Empty, top)
  }

  lemma InsideShape(m: Machine)
    requires Inside(m.state)
    ensures CurrentShape(m) == Open(Enter(Waiting(m.states), m.state))
  {
  }

  lemma ClosesShape(below: Stack, s: State, event: Event)
    requires (event.SequenceEnd? && Works(s, InSeq)) || (event.MappingEnd? && Works(s, MapKey))
    ensures StepEvent(Open(Enter(below, s)), event) == Open(below)
  {
  }

  lemma CloseReady(m0: Machine, m: Machine)
    requires Handling(m0, m) && !m0.state.ParseIndentlessSequenceEntry?
    ensures |m.states| > 0 && |m.marks| > 0 && Ready(DropMark(m), false)
  {
  }

  lemma SkipGood(m: Machine)
    requires Good(m) && !IsFirst(m.state) && !m.state.ParseEnd? && HasToken(m) && !Peek(m).typ.StreamEndToken?
    ensures Good(Skip(m)) && CurrentShape(Skip(m)) == CurrentShape(m) && Skip(m).tokens == m.tokens
    ensures Budget(Skip(m)) == Budget(m) - 3
  {
  }

  lemma CloseOk(m0: Machine, m: Machine, event: Event)
    requires Handling(m0, m) && HasToken(m) && !Peek(m).typ.StreamEndToken? && !m0.state.ParseIndentlessSequenceEntry?
    requires (event.SequenceEnd? && Works(m0.state, InSeq)) || (event.MappingEnd? && Works(m0.state, MapKey))
    ensures StepOk(m0, Close(m, event))
  {
    CloseReady(m0, m);
    PopGood(DropMark(m));
    SkipGood(PopState(DropMark(m)));
    InsideShape(m0);
    ClosesShape(Waiting(m.states), m0.state, event);
    assert StepHolds(m0, Close(m, event));
  }

  lemma OpenedHandling(m: Machine, first: bool)
    requires Good(m) && Inside(m.state) && (first <==> IsFirst(m.state))
    ensures Opened(m, first).Some? && Handling(m, Opened(m, first).value)
    ensures first ==> Opened(m, first).value.pos > m.pos
  {
  }

  lemma BlockSequenceEntryOk(m0: Machine, first: bool)
    requires Good(m0) && if first then m0.state.ParseBlockSequenceFirstEntry? else m0.state.ParseBlockSequenceEntry?
    ensures StepOk(m0, BlockSequenceEntryStep(m0, first))
  {
    OpenedHandling(m0, first);
    var m := Opened(m0, first).value;
    if HasToken(m) {
      if Peek(m).typ.BlockEntryToken? {
        var m1 := Skip(m);
        if HasToken(m1) {
          NodeThenOk(m0, m1, ParseBlockSequenceEntry, true, false);
          EmptyThenOk(m0, m1, ParseBlockSequenceEntry, Peek(m).endMark);
        }
      } else if Peek(m).typ.BlockEndToken? {
        CloseOk(m0, m, SequenceEnd(Peek(m).startMark, Peek(m).endMark));
      }
    }
    if BlockSequenceEntryStep(m0, first).Failed? {
      FailedOk(m0, BlockSequenceEntryStep(m0, first));
    }
  }

  lemma IndentlessSequenceEntryOk(m: Machine)
    requires Good(m) && m.state.ParseIndentlessSequenceEntry?
    ensures StepOk(m, IndentlessSequenceEntryStep(m))
  {
    if HasToken(m) {
      if Peek(m).typ.BlockEntryToken? {
        var m1 := Skip(m);
        if HasToken(m1) {
          NodeThenOk(m, m1, ParseIndentlessSequenceEntry, true, false);
          EmptyThenOk(m, m1, ParseIndentlessSequenceEntry, Peek(m).endMark);
        }
      } else {
        PopGood(m);
        assert StepHolds(m, IndentlessSequenceEntryStep(m));
      }
    }
    if IndentlessSequenceEntryStep(m).Failed? {
      FailedOk(m, IndentlessSequenceEntryStep(m));
    }
  }

  lemma BlockMappingKeyOk(m0: Machine, first: bool)
    requires Good(m0) && if first then m0.state.ParseBlockMappingFirstKey? else m0.state.ParseBlockMappingKey?
    ensures StepOk(m0, BlockMappingKeyStep(m0, first))
  {
    OpenedHandling(m0, first);
    var m := Opened(m0, first).value;
    if HasToken(m) {
      if Peek(m).typ.KeyToken? {
        var m1 := Skip(m);
        if HasToken(m1) {
          NodeThenOk(m0, m1, ParseBlockMappingValue, true, true);
          EmptyThenOk(m0, m1, ParseBlockMappingValue, Peek(m).endMark);
        }
      } else if Peek(m).typ.BlockEndToken? {
        CloseOk(m0, m, MappingEnd(Peek(m).startMark, Peek(m).endMark));
      }
    }
    if BlockMappingKeyStep(m0, first).Failed? {
      FailedOk(m0, BlockMappingKeyStep(m0, first));
    }
  }

  lemma BlockMappingValueOk(m: Machine)
    requires Good(m) && m.state.ParseBlockMappingValue?
    ensures StepOk(m, BlockMappingValueStep(m))
  {
    if HasToken(m) {
      if Peek(m).typ.ValueToken? {
        var m1 := Skip(m);
        if HasToken(m1) {
          NodeThenOk(m, m1, ParseBlockMappingKey, true, true);
          EmptyThenOk(m, m1, ParseBlockMappingKey, Peek(m).endMark);
        }
      } else {
        EmptyThenOk(m, m, ParseBlockMappingKey, Peek(m).startMark);
      }
    }
    if BlockMappingValueStep(m).Failed? {
      FailedOk(m, BlockMappingValueStep(m));
    }
  }

  lemma PairStarts(m0: Machine, m: Machine, event: Event)
    requires Handling(m0, m) && HasToken(m) && !Peek(m).typ.StreamEndToken? && event.MappingStart?
    requires m0.state.ParseFlowSequenceFirstEntry? || m0.state.ParseFlowSequenceEntry?
    ensures StepOk(m0, Produced(event, Skip(Goto(m, ParseFlowSequenceEntryMappingKey))))
  {
    assert StepHolds(m0, Produced(event, Skip(Goto(m, ParseFlowSequenceEntryMappingKey))));
  }

  lemma FlowSequenceEntryOk(m0: Machine, first: bool)
    requires Good(m0) && if first then m0.state.ParseFlowSequenceFirstEntry? else m0.state.ParseFlowSequenceEntry?
    ensures StepOk(m0, FlowSequenceEntryStep(m0, first))
  {
    OpenedHandling(m0, first);
    var m := Opened(m0, first).value;
    if HasToken(m) {
      if Peek(m).typ.FlowSequenceEndToken? {
        CloseOk(m0, m, SequenceEnd(Peek(m).startMark, Peek(m).endMark));
      } else if Separator(m, first).Some? {
        var m1 := Separator(m, first).value;
        if HasToken(m1) {
          if Peek(m1).typ.KeyToken? {
            PairStarts(m0, m1, MappingStart(Peek(m1).startMark, Peek(m1).endMark, None, [], true, FlowStyle));
          } else if !Peek(m1).typ.FlowSequenceEndToken? {
            NodeThenOk(m0, m1, ParseFlowSequenceEntry, false, false);
          } else {
            CloseOk(m0, m1, SequenceEnd(Peek(m1).startMark, Peek(m1).endMark));
          }
        }
      }
    }
    if FlowSequenceEntryStep(m0, first).Failed? {
      FailedOk(m0, FlowSequenceEntryStep(m0, first));
    }
  }

  lemma FlowSequenceEntryMappingKeyOk(m: Machine)
    requires Good(m) && m.state.ParseFlowSequenceEntryMappingKey?
    ensures StepOk(m, FlowSequenceEntryMappingKeyStep(m))
  {
    if HasToken(m) {
      NodeThenOk(m, m, ParseFlowSequenceEntryMappingValue, false, false);
      if !Peek(m).typ.StreamEndToken? {
        EmptyThenOk(m, Skip(m), ParseFlowSequenceEntryMappingValue, Peek(m).endMark);
      }
    }
    if FlowSequenceEntryMappingKeyStep(m).Failed? {
      FailedOk(m, FlowSequenceEntryMappingKeyStep(m));
    }
  }

  lemma FlowSequenceEntryMappingValueOk(m: Machine)
    requires Good(m) && m.state.ParseFlowSequenceEntryMappingValue?
    ensures StepOk(m, FlowSequenceEntryMappingValueStep(m))
  {
    if HasToken(m) {
      if Peek(m).typ.ValueToken? {
        var m1 := Skip(m);
        if HasToken(m1) {
          NodeThenOk(m, m1, ParseFlowSequenceEntryMappingEnd, false, false);
          EmptyThenOk(m, m1, ParseFlowSequenceEntryMappingEnd, Peek(m).startMark);
        }
      } else {
        EmptyThenOk(m, m, ParseFlowSequenceEntryMappingEnd, Peek(m).startMark);
      }
    }
    if FlowSequenceEntryMappingValueStep(m).Failed? {
      FailedOk(m, FlowSequenceEntryMappingValueStep(m));
    }
  }

  lemma FlowSequenceEntryMappingEndOk(m: Machine)
    requires Good(m) && m.state.ParseFlowSequenceEntryMappingEnd?
    ensures StepOk(m, FlowSequenceEntryMappingEndStep(m))
  {
    assert StepHolds(m, FlowSequenceEntryMappingEndStep(m));
  }

  lemma FlowMappingKeyOk(m0: Machine, first: bool)
    requires Good(m0) && if first then m0.state.ParseFlowMappingFirstKey? else m0.state.ParseFlowMappingKey?
    ensures StepOk(m0, FlowMappingKeyStep(m0, first))
  {
    OpenedHandling(m0, first);
    var m := Opened(m0, first).value;
    if HasToken(m) {
      if Peek(m).typ.FlowMappingEndToken? {
        CloseOk(m0, m, MappingEnd(Peek(m).startMark, Peek(m).endMark));
      } else if Separator(m, first).Some? {
        FlowMappingEntryOk(m0, Separator(m, first).value);
      }
    }
    if FlowMappingKeyStep(m0, first).Failed? {
      FailedOk(m0, FlowMappingKeyStep(m0, first));
    }
  }

  lemma FlowMappingEntryOk(m0: Machine, m1: Machine)
    requires Handling(m0, m1) && m1.pos > m0.pos && (m0.state.ParseFlowMappingFirstKey? || m0.state.ParseFlowMappingKey?)
    ensures StepOk(m0, FlowMappingEntry(m1))
  {
    if HasToken(m1) {
      if Peek(m1).typ.KeyToken? {
        var m2 := Skip(m1);
        if HasToken(m2) {
          NodeThenOk(m0, m2, ParseFlowMappingValue, false, false);
          EmptyThenOk(m0, m2, ParseFlowMappingValue, Peek(m2).startMark);
        }
      } else if !Peek(m1).typ.FlowMappingEndToken? {
        NodeThenOk(m0, m1, ParseFlowMappingEmptyValue, false, false);
      } else {
        CloseOk(m0, m1, MappingEnd(Peek(m1).startMark, Peek(m1).endMark));
      }
    }
    if FlowMappingEntry(m1).Failed? {
      FailedOk(m0, FlowMappingEntry(m1));
    }
  }

  lemma FlowMappingValueOk(m: Machine, empty: bool)
    requires Good(m) && if empty then m.state.ParseFlowMappingEmptyValue? else m.state.ParseFlowMappingValue?
    ensures StepOk(m, FlowMappingValueStep(m, empty))
  {
    if HasToken(m) {
      EmptyThenOk(m, m, ParseFlowMappingKey, Peek(m).startMark);
      if !empty && Peek(m).typ.ValueToken? {
        var m1 := Skip(m);
        if HasToken(m1) {
          NodeThenOk(m, m1, ParseFlowMappingKey, false, false);
          EmptyThenOk(m, m1, ParseFlowMappingKey, Peek(m1).startMark);
        }
      }
    }
    if FlowMappingValueStep(m, empty).Failed? {
      FailedOk(m, FlowMappingValueStep(m, empty));
    }
  }

  /** Every step from a good state, whatever the token: no panic, and if there is an
      event then the checker accepts it, it leads to a good state, and it has been paid
      for with a token or a lower rank. */
  lemma StepIsOk(m: Machine)
    requires Good(m) && !m.state.ParseEnd?
    ensures StepOk(m, Step(m))
  {
    match m.state
    case ParseStreamStart => StreamStartOk(m);
    case ParseImplicitDocumentStart => DocumentStartOk(m, true);
    case ParseDocumentStart => DocumentStartOk(m, false);
    case ParseDocumentContent => DocumentNodeOk(m);
    case ParseDocumentEnd => DocumentEndOk(m);
    case ParseBlockNode => DocumentNodeOk(m);
    case ParseBlockSequenceFirstEntry => BlockSequenceEntryOk(m, true);
    case ParseBlockSequenceEntry => BlockSequenceEntryOk(m, false);
    case ParseIndentlessSequenceEntry => IndentlessSequenceEntryOk(m);
    case ParseBlockMappingFirstKey => BlockMappingKeyOk(m, true);
    case ParseBlockMappingKey => BlockMappingKeyOk(m, false);
    case ParseBlockMappingValue => BlockMappingValueOk(m);
    case ParseFlowSequenceFirstEntry => FlowSequenceEntryOk(m, true);
    case ParseFlowSequenceEntry => FlowSequenceEntryOk(m, false);
    case ParseFlowSequenceEntryMappingKey => FlowSequenceEntryMappingKeyOk(m);
    case ParseFlowSequenceEntryMappingValue => FlowSequenceEntryMappingValueOk(m);
    case ParseFlowSequenceEntryMappingEnd => FlowSequenceEntryMappingEndOk(m);
    case ParseFlowMappingFirstKey => FlowMappingKeyOk(m, true);
    case ParseFlowMappingKey => FlowMappingKeyOk(m, false);
    case ParseFlowMappingValue => FlowMappingValueOk(m, false);
    case ParseFlowMappingEmptyValue => FlowMappingValueOk(m, true);
    case _ =>
  }

  // ----- Whole runs -----

  /** One successful call of the parser. */
  ghost predicate Moves(m: Machine, e: Event, m': Machine) {
    !m.state.ParseEnd? && Step(m) == Produced(e, m')
  }

  /** A run: the events produced and the states passed through, from the start of `tokens`. */
  ghost predicate IsRun(tokens: seq<Token>, ms: seq<Machine>, es: seq<Event>) {
    && |ms| == |es| + 1
    && ms[0] == Initial(tokens)
    && forall i, j | 0 <= i < j < |ms| && j == i + 1 :: Moves(ms[i], es[i], ms[j])
  }

  lemma MoveIsOk(m: Machine, e: Event, m': Machine)
    requires Good(m) && Moves(m, e, m')
    ensures Good(m') && m'.tokens == m.tokens && Budget(m') < Budget(m)
    ensures StepEvent(CurrentShape(m), e) == CurrentShape(m')
  {
    StepIsOk(m);
    assert StepHolds(m, Step(m));
  }

  /** Along every run the invariant holds, the checker stands where control does, and
      the events are within budget. */
  lemma {:induction false} RunIsOk(tokens: seq<Token>, ms: seq<Machine>, es: seq<Event>)
    requires IsRun(tokens, ms, es)
    ensures var m := ms[|es|];
            Good(m) && m.tokens == tokens && Run(es) == CurrentShape(m) && |es| + Budget(m) <= 3 * |tokens|
    decreases |es|
  {
    if es != [] {
      var n := |es| - 1;
      RunIsOk(tokens, ms[..n + 1], es[..n]);
      MoveIsOk(ms[n], es[n], ms[n + 1]);
    }
  }

  /** For every token sequence and every run over it: no call panics, the events are a
      prefix of a whole well-nested stream, they are a whole stream exactly when the
      parser has reached its end state, and there are at most three of them a token. */
  lemma ParserRuns(tokens: seq<Token>, ms: seq<Machine>, es: seq<Event>)
    requires IsRun(tokens, ms, es)
    ensures var m := ms[|es|];
            && (!m.state.ParseEnd? ==> !Step(m).Panic?)
            && (exists more, ss, ds, se :: IsStream(es + more, ss, ds, se))
            && (m.state.ParseEnd? <==> exists ss, ds, se :: IsStream(es, ss, ds, se))
            && |es| <= 3 * |tokens|
  {
    RunIsOk(tokens, ms, es);
    if !ms[|es|].state.ParseEnd? {
      StepIsOk(ms[|es|]);
      assert StepHolds(ms[|es|], Step(ms[|es|]));
    }
    PrefixOfStream(es);
    AcceptsExactlyTrees(es);
  }
}
