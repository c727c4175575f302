/** The YAML parser as the source has it: an object whose methods consume tokens, move
    between states and push and pop the two stacks.  Every method does what the
    function of the same state in YamlMachine says. */
module YamlParser {
  import opened Prelude
  import opened YamlEvents
  import M = YamlMachine

  datatype ErrorType = NoError | ScannerError | ParserError

  /** What a call that returned (`ok`, `event`) and left the parser in state `m` with
      error `error` must have done if its specification is `o`. */
  ghost predicate Matches(o: M.Outcome, ok: bool, event: Event, m: M.Machine, error: ErrorType, problem: string) {
    match o
    case Produced(e, next) => ok && event == e && m == next && error.NoError?
    case Failed(why) => !ok && !error.NoError? && problem == why
    case Panic => false
  }

  class Parser {
    const tokens: seq<Token>
    var pos: nat
    var error: ErrorType
    var problem: string
    var streamEndProduced: bool
    var state: M.State
    var states: seq<M.State>
    var marks: seq<Mark>
    var tagDirectives: seq<TagDirective>

    // Every event produced so far.
    ghost var emitted: seq<Event>

    ghost function Snap(): M.Machine
      reads this
    {
      M.Machine(tokens, pos, state, states, marks, tagDirectives, streamEndProduced)
    }

    constructor (tokens: seq<Token>)
      ensures Valid() && this.tokens == tokens && Snap() == M.Initial(tokens) && error.NoError? && emitted == []
    {
      this.tokens := tokens;
      pos, error, problem, streamEndProduced := 0, NoError, "", false;
      state, states, marks, tagDirectives := M.ParseStreamStart, [], [], [];
      emitted := [];
    }

    method PeekToken() returns (t: Option<Token>)
      modifies this`error, this`problem
      ensures t.Some? <==> M.HasToken(Snap())
      ensures t.Some? ==> t.value == M.Peek(Snap()) && error == old(error) && problem == old(problem)
      ensures t.None? ==> error.ScannerError? && problem == M.NO_TOKEN
    {
      if pos < |tokens| {
        return Some(tokens[pos]);
      }
      error, problem := ScannerError, M.NO_TOKEN;
      return None;
    }

    method SkipToken()
      requires M.HasToken(Snap())
      modifies this`pos, this`streamEndProduced
      ensures Snap() == M.Skip(old(Snap()))
    {
      streamEndProduced := tokens[pos].typ.StreamEndToken?;
      pos := pos + 1;
    }

    method SetParserError(why: string)
      modifies this`error, this`problem
      ensures error.ParserError? && problem == why
    {
      error, problem := ParserError, why;
    }

    method PopState()
      requires |states| > 0
      modifies this`state, this`states
      ensures Snap() == M.PopState(old(Snap()))
    {
      state := states[|states| - 1];
      states := states[..|states| - 1];
    }

    // ----- Nodes -----

    method ParseNode(block: bool, indentlessSequence: bool) returns (ok: bool, event: Event)
      requires error.NoError? && !M.ReadNode(Snap(), block, indentlessSequence).Panic?
      modifies this
      ensures emitted == old(emitted)
      ensures Matches(M.ReadNode(old(Snap()), block, indentlessSequence), ok, event, Snap(), error, problem)
    {
      var peeked := PeekToken();
      if peeked.None? { return false, NoEvent; }
      var token := peeked.value;
      if token.typ.AliasToken? {
        PopState();
        SkipToken();
        return true, Alias(token.startMark, token.endMark, token.value);
      }
      var startMark, endMark, anchor, tag;
      ok, startMark, endMark, anchor, tag := ParseProperties();
      if !ok { return false, NoEvent; }
      peeked := PeekToken();
      if peeked.None? { return false, NoEvent; }
      ok, event := ParseContent(block, indentlessSequence, startMark, endMark, anchor, tag);
    }

    method ParseProperties() returns (ok: bool, startMark: Mark, endMark: Mark, anchor: Option<Bytes>, tag: Bytes)
      requires error.NoError? && M.HasToken(Snap())
      modifies this`pos, this`streamEndProduced, this`error, this`problem
      ensures match M.ReadProperties(old(Snap()))
        case Properties(m, s, e, a, t) =>
          ok && error.NoError? && Snap() == m && startMark == s && endMark == e && anchor == a && tag == t
        case BadProperties(why) => !ok && !error.NoError? && problem == why
    {
      var token := tokens[pos];
      startMark, endMark, anchor, tag := token.startMark, token.startMark, None, [];
      var tagToken: Option<Token> := None;
      if token.typ.AnchorToken? {
        anchor := Some(token.value);
        endMark := token.endMark;
        SkipToken();
        var peeked := PeekToken();
        if peeked.None? { return false, startMark, endMark, anchor, tag; }
        if peeked.value.typ.TagToken? {
          tagToken := peeked;
          endMark := peeked.value.endMark;
          SkipToken();
          peeked := PeekToken();
          if peeked.None? { return false, startMark, endMark, anchor, tag; }
        }
      } else if token.typ.TagToken? {
        tagToken := Some(token);
        endMark := token.endMark;
        SkipToken();
        var peeked := PeekToken();
        if peeked.None? { return false, startMark, endMark, anchor, tag; }
        if peeked.value.typ.AnchorToken? {
          anchor := Some(peeked.value.value);
          endMark := peeked.value.endMark;
          SkipToken();
          peeked := PeekToken();
          if peeked.None? { return false, startMark, endMark, anchor, tag; }
        }
      }
      if tagToken.Some? {
        if tagToken.value.value == [] {
          tag := tagToken.value.suffix;
        } else {
          tag := ResolveTag(tagToken.value.value, tagToken.value.suffix);
          if tag == [] {
            SetParserError("found undefined tag handle");
            return false, startMark, endMark, anchor, tag;
          }
        }
      }
      return true, startMark, endMark, anchor, tag;
    }

    method ResolveTag(handle: Bytes, suffix: Bytes) returns (tag: Bytes)
      ensures tag == M.ResolveTag(tagDirectives, handle, suffix)
    {
      for i := 0 to |tagDirectives|
        invariant M.ResolveTag(tagDirectives, handle, suffix) == M.ResolveTag(tagDirectives[i..], handle, suffix)
      {
        if tagDirectives[i].handle == handle {
          return tagDirectives[i].prefix + suffix;
        }
      }
      return [];
    }

    method ParseContent(block: bool, indentlessSequence: bool, startMark: Mark, endMark: Mark,
                        anchor: Option<Bytes>, tag: Bytes) returns (ok: bool, event: Event)
      requires error.NoError? && M.HasToken(Snap())
      requires !M.ReadContent(M.Properties(Snap(), startMark, endMark, anchor, tag), block, indentlessSequence).Panic?
      modifies this
      ensures emitted == old(emitted)
      ensures Matches(M.ReadContent(M.Properties(old(Snap()), startMark, endMark, anchor, tag), block, indentlessSequence),
                      ok, event, Snap(), error, problem)
    {
      var token := tokens[pos];
      var implicit := tag == [];
      if indentlessSequence && token.typ.BlockEntryToken? {
        state := M.ParseIndentlessSequenceEntry;
        return true, SequenceStart(startMark, token.endMark, anchor, tag, implicit, BlockStyle);
      }
      if token.typ.ScalarToken? {
        var plainImplicit := (tag == [] && token.style.Plain?) || tag == [33];
        var quotedImplicit := !plainImplicit && tag == [];
        PopState();
        SkipToken();
        return true, Scalar(startMark, token.endMark, anchor, tag, token.value, plainImplicit, quotedImplicit, token.style);
      }
      if token.typ.FlowSequenceStartToken? {
        state := M.ParseFlowSequenceFirstEntry;
        return true, SequenceStart(startMark, token.endMark, anchor, tag, implicit, FlowStyle);
      }
      if token.typ.FlowMappingStartToken? {
        state := M.ParseFlowMappingFirstKey;
        return true, MappingStart(startMark, token.endMark, anchor, tag, implicit, FlowStyle);
      }
      if block && token.typ.BlockSequenceStartToken? {
        state := M.ParseBlockSequenceFirstEntry;
        return true, SequenceStart(startMark, token.endMark, anchor, tag, implicit, BlockStyle);
      }
      if block && token.typ.BlockMappingStartToken? {
        state := M.ParseBlockMappingFirstKey;
        return true, MappingStart(startMark, token.endMark, anchor, tag, implicit, BlockStyle);
      }
      if (anchor.Some? && |anchor.value| > 0) || |tag| > 0 {
        PopState();
        return true, Scalar(startMark, endMark, anchor, tag, [], implicit, false, Plain);
      }
      SetParserError("did not find expected node content");
      return false, NoEvent;
    }

    // ----- Stream and documents -----

    method ParseStreamStart() returns (ok: bool, event: Event)
      requires error.NoError?
      modifies this
      ensures emitted == old(emitted)
      ensures Matches(M.StreamStartStep(old(Snap())), ok, event, Snap(), error, problem)
    {
      var peeked := PeekToken();
      if peeked.None? { return false, NoEvent; }
      var token := peeked.value;
      if !token.typ.StreamStartToken? {
        SetParserError("did not find expected <stream-start>");
        return false, NoEvent;
      }
      state := M.ParseImplicitDocumentStart;
      SkipToken();
      return true, StreamStart(token.startMark, token.endMark, token.encoding);
    }

    method ParseDocumentStart(implicit: bool) returns (ok: bool, event: Event)
      requires error.NoError?
      modifies this
      ensures emitted == old(emitted)
      ensures Matches(M.DocumentStartStep(old(Snap()), implicit), ok, event, Snap(), error, problem)
    {
      if !implicit {
        SkipDocumentEnds();
      }
      var peeked := PeekToken();
      if peeked.None? { return false, NoEvent; }
      var token := peeked.value;
      if implicit && !token.typ.VersionDirectiveToken? && !token.typ.TagDirectiveToken?
         && !token.typ.DocumentStartToken? && !token.typ.StreamEndToken? {
        var parsed, _, _ := ProcessDirectives();
        if !parsed { return false, NoEvent; }
        states := states + [M.ParseDocumentEnd];
        state := M.ParseBlockNode;
        return true, DocumentStart(token.startMark, token.endMark, None, [], false);
      } else if !token.typ.StreamEndToken? {
        var startMark := token.startMark;
        var parsed, version, tags := ProcessDirectives();
        if !parsed { return false, NoEvent; }
        peeked := PeekToken();
        if peeked.None? { return false, NoEvent; }
        token := peeked.value;
        if !token.typ.DocumentStartToken? {
          SetParserError("did not find expected <document start>");
          return false, NoEvent;
        }
        states := states + [M.ParseDocumentEnd];
        state := M.ParseDocumentContent;
        SkipToken();
        return true, DocumentStart(startMark, token.endMark, version, tags, false);
      } else {
        state := M.ParseEnd;
        SkipToken();
        return true, StreamEnd(token.startMark, token.endMark);
      }
    }

    method SkipDocumentEnds()
      modifies this`pos, this`streamEndProduced
      ensures Snap() == M.SkipDocumentEnds(old(Snap()))
    {
      while pos < |tokens| && tokens[pos].typ.DocumentEndToken?
        invariant M.SkipDocumentEnds(Snap()) == M.SkipDocumentEnds(old(Snap()))
        decreases |tokens| - pos
      {
        SkipToken();
      }
    }

    method ProcessDirectives() returns (ok: bool, version: Option<Version>, tags: seq<TagDirective>)
      requires error.NoError?
      modifies this`pos, this`streamEndProduced, this`error, this`problem, this`tagDirectives
      ensures match M.ReadDirectives(old(Snap()), None, [])
        case Directives(m, v, ts) => ok && error.NoError? && Snap() == m && version == v && tags == ts
        case BadDirectives(why) => !ok && !error.NoError? && problem == why
    {
      version, tags := None, [];
      var peeked := PeekToken();
      while peeked.Some? && (peeked.value.typ.VersionDirectiveToken? || peeked.value.typ.TagDirectiveToken?)
        invariant M.ReadDirectives(Snap(), version, tags) == M.ReadDirectives(old(Snap()), None, [])
        invariant if M.HasToken(Snap()) then error.NoError? && peeked == Some(M.Peek(Snap()))
                  else peeked.None? && error.ScannerError? && problem == M.NO_TOKEN
        decreases |tokens| - pos
      {
        var token := peeked.value;
        if token.typ.VersionDirectiveToken? {
          if version.Some? {
            SetParserError("found duplicate %YAML directive");
            return false, version, tags;
          }
          if token.major != 1 || token.minor != 1 {
            SetParserError("found incompatible YAML document");
            return false, version, tags;
          }
          version := Some(Version(token.major, token.minor));
        } else {
          var value := TagDirective(token.value, token.prefix);
          var added := AppendTagDirective(value, false);
          if !added { return false, version, tags; }
          tags := tags + [value];
        }
        SkipToken();
        peeked := PeekToken();
      }
      if peeked.None? { return false, version, tags; }
      var _ := AppendTagDirective(TagDirective([33], [33]), true);
      var _ := AppendTagDirective(TagDirective([33, 33], M.CORE_TAG_PREFIX), true);
      return true, version, tags;
    }

    method AppendTagDirective(value: TagDirective, allowDuplicates: bool) returns (ok: bool)
      requires error.NoError?
      modifies this`error, this`problem, this`tagDirectives
      ensures match M.AppendTagDirective(old(tagDirectives), value, allowDuplicates)
        case Some(ds) => ok && tagDirectives == ds && error.NoError? && problem == old(problem)
        case None => !ok && tagDirectives == old(tagDirectives) && error.ParserError? && problem == "found duplicate %TAG directive"
    {
      for i := 0 to |tagDirectives|
        invariant forall j | 0 <= j < i :: tagDirectives[j].handle != value.handle
      {
        if tagDirectives[i].handle == value.handle {
          if allowDuplicates { return true; }
          SetParserError("found duplicate %TAG directive");
          return false;
        }
      }
      tagDirectives := tagDirectives + [value];
      return true;
    }

    method ParseDocumentContent() returns (ok: bool, event: Event)
      requires error.NoError? && !M.DocumentContentStep(Snap()).Panic?
      modifies this
      ensures emitted == old(emitted)
      ensures Matches(M.DocumentContentStep(old(Snap())), ok, event, Snap(), error, problem)
    {
      var peeked := PeekToken();
      if peeked.None? { return false, NoEvent; }
      var typ := peeked.value.typ;
      if typ.VersionDirectiveToken? || typ.TagDirectiveToken? || typ.DocumentStartToken? || typ.DocumentEndToken?
         || typ.StreamEndToken? {
        PopState();
        return true, M.EmptyScalar(peeked.value.startMark);
      }
      ok, event := ParseNode(true, false);
    }

    method ParseDocumentEnd() returns (ok: bool, event: Event)
      requires error.NoError?
      modifies this
      ensures emitted == old(emitted)
      ensures Matches(M.DocumentEndStep(old(Snap())), ok, event, Snap(), error, problem)
    {
      var peeked := PeekToken();
      if peeked.None? { return false, NoEvent; }
      var token := peeked.value;
      var startMark, endMark, implicit := token.startMark, token.startMark, true;
      if token.typ.DocumentEndToken? {
        endMark := token.endMark;
        SkipToken();
        implicit := false;
      }
      tagDirectives := [];
      state := M.ParseDocumentStart;
      return true, DocumentEnd(startMark, endMark, implicit);
    }

    // ----- Collections -----

    /** In a FIRST state: the opening token's mark is pushed and the token consumed. */
    method PushMark()
      requires M.HasToken(Snap())
      modifies this`pos, this`streamEndProduced, this`marks
      ensures Snap() == M.Opened(old(Snap()), true).value
    {
      marks := marks + [tokens[pos].startMark];
      SkipToken();
    }

    method NodeThen(cont: M.State, block: bool, indentlessSequence: bool) returns (ok: bool, event: Event)
      requires error.NoError? && !M.NodeThen(Snap(), cont, block, indentlessSequence).Panic?
      modifies this
      ensures emitted == old(emitted)
      ensures Matches(M.NodeThen(old(Snap()), cont, block, indentlessSequence), ok, event, Snap(), error, problem)
    {
      states := states + [cont];
      ok, event := ParseNode(block, indentlessSequence);
    }

    method EmptyThen(cont: M.State, mark: Mark) returns (ok: bool, event: Event)
      requires error.NoError?
      modifies this`state
      ensures Matches(M.EmptyThen(old(Snap()), cont, mark), ok, event, Snap(), error, problem)
    {
      state := cont;
      return true, M.EmptyScalar(mark);
    }

    method Close(end: Event) returns (ok: bool, event: Event)
      requires error.NoError? && M.HasToken(Snap()) && !M.Close(Snap(), end).Panic?
      modifies this
      ensures emitted == old(emitted)
      ensures Matches(M.Close(old(Snap()), end), ok, event, Snap(), error, problem)
    {
      PopState();
      marks := marks[..|marks| - 1];
      SkipToken();
      return true, end;
    }

    /** Reports an error in the collection whose mark is on top, which is popped. */
    method FailInside(why: string) returns (ok: bool, event: Event)
      requires !M.FailInside(Snap(), why).Panic?
      modifies this`error, this`problem, this`marks
      ensures Matches(M.FailInside(old(Snap()), why), ok, event, Snap(), error, problem)
    {
      marks := marks[..|marks| - 1];
      SetParserError(why);
      return false, NoEvent;
    }

    method ParseBlockSequenceEntry(first: bool) returns (ok: bool, event: Event)
      requires error.NoError? && !M.BlockSequenceEntryStep(Snap(), first).Panic?
      modifies this
      ensures emitted == old(emitted)
      ensures Matches(M.BlockSequenceEntryStep(old(Snap()), first), ok, event, Snap(), error, problem)
    {
      if first {
        PushMark();
      }
      var peeked := PeekToken();
      if peeked.None? { return false, NoEvent; }
      var token := peeked.value;
      if token.typ.BlockEntryToken? {
        var mark := token.endMark;
        SkipToken();
        peeked := PeekToken();
        if peeked.None? { return false, NoEvent; }
        token := peeked.value;
        if !token.typ.BlockEntryToken? && !token.typ.BlockEndToken? {
          ok, event := NodeThen(M.ParseBlockSequenceEntry, true, false);
        } else {
          ok, event := EmptyThen(M.ParseBlockSequenceEntry, mark);
        }
      } else if token.typ.BlockEndToken? {
        ok, event := Close(SequenceEnd(token.startMark, token.endMark));
      } else {
        ok, event := FailInside("did not find expected '-' indicator");
      }
    }

    method ParseIndentlessSequenceEntry() returns (ok: bool, event: Event)
      requires error.NoError? && !M.IndentlessSequenceEntryStep(Snap()).Panic?
      modifies this
      ensures emitted == old(emitted)
      ensures Matches(M.IndentlessSequenceEntryStep(old(Snap())), ok, event, Snap(), error, problem)
    {
      var peeked := PeekToken();
      if peeked.None? { return false, NoEvent; }
      var token := peeked.value;
      if token.typ.BlockEntryToken? {
        var mark := token.endMark;
        SkipToken();
        peeked := PeekToken();
        if peeked.None? { return false, NoEvent; }
        var typ := peeked.value.typ;
        if !typ.BlockEntryToken? && !typ.KeyToken? && !typ.ValueToken? && !typ.BlockEndToken? {
          ok, event := NodeThen(M.ParseIndentlessSequenceEntry, true, false);
        } else {
          ok, event := EmptyThen(M.ParseIndentlessSequenceEntry, mark);
        }
      } else {
        PopState();
        return true, SequenceEnd(token.startMark, token.startMark);
      }
    }

    method ParseBlockMappingKey(first: bool) returns (ok: bool, event: Event)
      requires error.NoError? && !M.BlockMappingKeyStep(Snap(), first).Panic?
      modifies this
      ensures emitted == old(emitted)
      ensures Matches(M.BlockMappingKeyStep(old(Snap()), first), ok, event, Snap(), error, problem)
    {
      if first {
        PushMark();
      }
      var peeked := PeekToken();
      if peeked.None? { return false, NoEvent; }
      var token := peeked.value;
      if token.typ.KeyToken? {
        var mark := token.endMark;
        SkipToken();
        peeked := PeekToken();
        if peeked.None? { return false, NoEvent; }
        var typ := peeked.value.typ;
        if !typ.KeyToken? && !typ.ValueToken? && !typ.BlockEndToken? {
          ok, event := NodeThen(M.ParseBlockMappingValue, true, true);
        } else {
          ok, event := EmptyThen(M.ParseBlockMappingValue, mark);
        }
      } else if token.typ.BlockEndToken? {
        ok, event := Close(MappingEnd(token.startMark, token.endMark));
      } else {
        ok, event := FailInside("did not find expected key");
      }
    }

    method ParseBlockMappingValue() returns (ok: bool, event: Event)
      requires error.NoError? && !M.BlockMappingValueStep(Snap()).Panic?
      modifies this
      ensures emitted == old(emitted)
      ensures Matches(M.BlockMappingValueStep(old(Snap())), ok, event, Snap(), error, problem)
    {
      var peeked := PeekToken();
      if peeked.None? { return false, NoEvent; }
      var token := peeked.value;
      if token.typ.ValueToken? {
        var mark := token.endMark;
        SkipToken();
        peeked := PeekToken();
        if peeked.None? { return false, NoEvent; }
        var typ := peeked.value.typ;
        if !typ.KeyToken? && !typ.ValueToken? && !typ.BlockEndToken? {
          ok, event := NodeThen(M.ParseBlockMappingKey, true, true);
        } else {
          ok, event := EmptyThen(M.ParseBlockMappingKey, mark);
        }
      } else {
        ok, event := EmptyThen(M.ParseBlockMappingKey, token.startMark);
      }
    }

    method ParseFlowSequenceEntry(first: bool) returns (ok: bool, event: Event)
      requires error.NoError? && !M.FlowSequenceEntryStep(Snap(), first).Panic?
      modifies this
      ensures emitted == old(emitted)
      ensures Matches(M.FlowSequenceEntryStep(old(Snap()), first), ok, event, Snap(), error, problem)
    {
      if first {
        PushMark();
      }
      var peeked := PeekToken();
      if peeked.None? { return false, NoEvent; }
      var token := peeked.value;
      if !token.typ.FlowSequenceEndToken? {
        if !first {
          if token.typ.FlowEntryToken? {
            SkipToken();
            peeked := PeekToken();
            if peeked.None? { return false, NoEvent; }
            token := peeked.value;
          } else {
            ok, event := FailInside("did not find expected ',' or ']'");
            return;
          }
        }
        if token.typ.KeyToken? {
          state := M.ParseFlowSequenceEntryMappingKey;
          SkipToken();
          return true, MappingStart(token.startMark, token.endMark, None, [], true, FlowStyle);
        } else if !token.typ.FlowSequenceEndToken? {
          ok, event := NodeThen(M.ParseFlowSequenceEntry, false, false);
          return;
        }
      }
      ok, event := Close(SequenceEnd(token.startMark, token.endMark));
    }

    method ParseFlowSequenceEntryMappingKey() returns (ok: bool, event: Event)
      requires error.NoError? && !M.FlowSequenceEntryMappingKeyStep(Snap()).Panic?
      modifies this
      ensures emitted == old(emitted)
      ensures Matches(M.FlowSequenceEntryMappingKeyStep(old(Snap())), ok, event, Snap(), error, problem)
    {
      var peeked := PeekToken();
      if peeked.None? { return false, NoEvent; }
      var token := peeked.value;
      if !token.typ.ValueToken? && !token.typ.FlowEntryToken? && !token.typ.FlowSequenceEndToken? {
        ok, event := NodeThen(M.ParseFlowSequenceEntryMappingValue, false, false);
      } else {
        SkipToken();
        ok, event := EmptyThen(M.ParseFlowSequenceEntryMappingValue, token.endMark);
      }
    }

    method ParseFlowSequenceEntryMappingValue() returns (ok: bool, event: Event)
      requires error.NoError? && !M.FlowSequenceEntryMappingValueStep(Snap()).Panic?
      modifies this
      ensures emitted == old(emitted)
      ensures Matches(M.FlowSequenceEntryMappingValueStep(old(Snap())), ok, event, Snap(), error, problem)
    {
      var peeked := PeekToken();
      if peeked.None? { return false, NoEvent; }
      var token := peeked.value;
      if token.typ.ValueToken? {
        SkipToken();
        // The source declares a second variable here.  Its outer one still points at the place of the
        // VALUE token, which the peek may reuse; here `token` stays that token.
        var next := PeekToken();
        if next.None? { return false, NoEvent; }
        if !next.value.typ.FlowEntryToken? && !next.value.typ.FlowSequenceEndToken? {
          ok, event := NodeThen(M.ParseFlowSequenceEntryMappingEnd, false, false);
          return;
        }
      }
      ok, event := EmptyThen(M.ParseFlowSequenceEntryMappingEnd, token.startMark);
    }

    method ParseFlowSequenceEntryMappingEnd() returns (ok: bool, event: Event)
      requires error.NoError?
      modifies this
      ensures emitted == old(emitted)
      ensures Matches(M.FlowSequenceEntryMappingEndStep(old(Snap())), ok, event, Snap(), error, problem)
    {
      var peeked := PeekToken();
      if peeked.None? { return false, NoEvent; }
      state := M.ParseFlowSequenceEntry;
      return true, MappingEnd(peeked.value.startMark, peeked.value.startMark);
    }

    method ParseFlowMappingKey(first: bool) returns (ok: bool, event: Event)
      requires error.NoError? && !M.FlowMappingKeyStep(Snap(), first).Panic?
      modifies this
      ensures emitted == old(emitted)
      ensures Matches(M.FlowMappingKeyStep(old(Snap()), first), ok, event, Snap(), error, problem)
    {
      if first {
        PushMark();
      }
      var peeked := PeekToken();
      if peeked.None? { return false, NoEvent; }
      var token := peeked.value;
      if token.typ.FlowMappingEndToken? {
        ok, event := Close(MappingEnd(token.startMark, token.endMark));
        return;
      }
      if !first {
        if token.typ.FlowEntryToken? {
          SkipToken();
        } else {
          ok, event := FailInside("did not find expected ',' or '}'");
          return;
        }
      }
      ok, event := ParseFlowMappingEntry();
    }

    /** The entry at the next token, or the end of the mapping after a separator. */
    method ParseFlowMappingEntry() returns (ok: bool, event: Event)
      requires error.NoError? && !M.FlowMappingEntry(Snap()).Panic?
      modifies this
      ensures emitted == old(emitted)
      ensures Matches(M.FlowMappingEntry(old(Snap())), ok, event, Snap(), error, problem)
    {
      var peeked := PeekToken();
      if peeked.None? { return false, NoEvent; }
      var token := peeked.value;
      if token.typ.KeyToken? {
        SkipToken();
        peeked := PeekToken();
        if peeked.None? { return false, NoEvent; }
        token := peeked.value;
        if !token.typ.ValueToken? && !token.typ.FlowEntryToken? && !token.typ.FlowMappingEndToken? {
          ok, event := NodeThen(M.ParseFlowMappingValue, false, false);
        } else {
          ok, event := EmptyThen(M.ParseFlowMappingValue, token.startMark);
        }
      } else if !token.typ.FlowMappingEndToken? {
        ok, event := NodeThen(M.ParseFlowMappingEmptyValue, false, false);
      } else {
        ok, event := Close(MappingEnd(token.startMark, token.endMark));
      }
    }

    method ParseFlowMappingValue(empty: bool) returns (ok: bool, event: Event)
      requires error.NoError? && !M.FlowMappingValueStep(Snap(), empty).Panic?
      modifies this
      ensures emitted == old(emitted)
      ensures Matches(M.FlowMappingValueStep(old(Snap()), empty), ok, event, Snap(), error, problem)
    {
      var peeked := PeekToken();
      if peeked.None? { return false, NoEvent; }
      var token := peeked.value;
      if empty {
        ok, event := EmptyThen(M.ParseFlowMappingKey, token.startMark);
        return;
      }
      if token.typ.ValueToken? {
        SkipToken();
        peeked := PeekToken();
        if peeked.None? { return false, NoEvent; }
        token := peeked.value;
        if !token.typ.FlowEntryToken? && !token.typ.FlowMappingEndToken? {
          ok, event := NodeThen(M.ParseFlowMappingKey, false, false);
          return;
        }
      }
      ok, event := EmptyThen(M.ParseFlowMappingKey, token.startMark);
    }

    // ----- The parser -----

    method StateMachine() returns (ok: bool, event: Event)
      requires error.NoError? && !M.Step(Snap()).Panic?
      modifies this
      ensures emitted == old(emitted)
      ensures Matches(M.Step(old(Snap())), ok, event, Snap(), error, problem)
    {
      match state
      case ParseStreamStart => ok, event := ParseStreamStart();
      case ParseImplicitDocumentStart => ok, event := ParseDocumentStart(true);
      case ParseDocumentStart => ok, event := ParseDocumentStart(false);
      case ParseDocumentContent => ok, event := ParseDocumentContent();
      case ParseDocumentEnd => ok, event := ParseDocumentEnd();
      case ParseBlockNode => ok, event := ParseNode(true, false);
      case ParseBlockNodeOrIndentlessSequence => ok, event := ParseNode(true, true);
      case ParseFlowNode => ok, event := ParseNode(false, false);
      case ParseBlockSequenceFirstEntry => ok, event := ParseBlockSequenceEntry(true);
      case ParseBlockSequenceEntry => ok, event := ParseBlockSequenceEntry(false);
      case ParseIndentlessSequenceEntry => ok, event := ParseIndentlessSequenceEntry();
      case ParseBlockMappingFirstKey => ok, event := ParseBlockMappingKey(true);
      case ParseBlockMappingKey => ok, event := ParseBlockMappingKey(false);
      case ParseBlockMappingValue => ok, event := ParseBlockMappingValue();
      case ParseFlowSequenceFirstEntry => ok, event := ParseFlowSequenceEntry(true);
      case ParseFlowSequenceEntry => ok, event := ParseFlowSequenceEntry(false);
      case ParseFlowSequenceEntryMappingKey => ok, event := ParseFlowSequenceEntryMappingKey();
      case ParseFlowSequenceEntryMappingValue => ok, event := ParseFlowSequenceEntryMappingValue();
      case ParseFlowSequenceEntryMappingEnd => ok, event := ParseFlowSequenceEntryMappingEnd();
      case ParseFlowMappingFirstKey => ok, event := ParseFlowMappingKey(true);
      case ParseFlowMappingKey => ok, event := ParseFlowMappingKey(false);
      case ParseFlowMappingValue => ok, event := ParseFlowMappingValue(false);
      case ParseFlowMappingEmptyValue => ok, event := ParseFlowMappingValue(true);
    }

    /** The events produced so far are well nested and within budget; while there is no
        error, control stands where they lead. */
    ghost predicate Valid()
      reads this
    {
      && Run(emitted) != Broken
      && |emitted| <= 3 * |tokens|
      && (error.NoError? ==> InStep(emitted, Snap()))
    }

    /** The next event, or `NoEvent` after the end of the stream or an error. */
    method Parse() returns (ok: bool, event: Event)
      requires Valid()
      modifies this
      ensures Valid()
      ensures old(streamEndProduced || !error.NoError? || state.ParseEnd?) ==>
                ok && event == NoEvent && Snap() == old(Snap()) && emitted == old(emitted) && error == old(error)
      ensures old(!streamEndProduced && error.NoError? && !state.ParseEnd?) ==>
                && Matches(M.Step(old(Snap())), ok, event, Snap(), error, problem)
                && emitted == old(emitted) + (if ok then [event] else [])
    {
      if streamEndProduced || !error.NoError? || state.ParseEnd? {
        return true, NoEvent;
      }
      M.StepIsOk(Snap());
      assert M.StepHolds(Snap(), M.Step(Snap()));
      RunNotBroken(Snap());
      ghost var m := Snap();
      ok, event := StateMachine();
      if ok {
        RunSnoc(emitted, event);
        RunNotBroken(Snap());
        emitted := emitted + [event];
      }
    }
  }

  /** The checker has read the emitted events up to where control stands, and there is
      budget for the events still to come. */
  ghost predicate InStep(emitted: seq<Event>, m: M.Machine) {
    && M.Good(m)
    && Run(emitted) == M.CurrentShape(m)
    && |emitted| + M.Budget(m) <= 3 * |m.tokens|
  }

  lemma RunNotBroken(m: M.Machine)
    requires M.Good(m)
    ensures M.CurrentShape(m) != Broken && M.Budget(m) >= 0
  {
  }
}
