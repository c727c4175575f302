/** The scanner's fetchers, updating the queue, the simple keys and the indentation levels in place. */
module YamlFetcher {
  import opened Prelude
  import opened YamlEvents
  import opened YamlTokenQueue
  import YamlKeys

  class Fetcher {
    const queue: TokenQueue
    var keys: seq<YamlKeys.SimpleKey>
    var flow: nat
    var indent: int
    var indents: seq<int>
    var allowed: bool
    var mark: YamlKeys.Place
    var started: bool
    const encoding: int
    var available: bool

    ghost predicate Valid()
      reads this, queue
    {
      queue.Valid()
    }

    ghost function View(): YamlKeys.State
      reads this, queue, queue.tokens
      requires Valid()
    {
      YamlKeys.State(queue.past, queue.Contents(), keys, flow, indent, indents, allowed, mark, started, encoding)
    }

    /** `encoding` is the one the reader has recognised. */
    constructor (encoding: int)
      ensures Valid() && YamlKeys.Fresh(View()) && View().encoding == encoding && !available && fresh(queue) && fresh(queue.tokens)
    {
      queue := new TokenQueue();
      this.encoding := encoding;
      keys, flow, indent, indents, allowed := [], 0, 0, [], false;
      mark, started, available := Mark(0, 0, 0), false, false;
    }

    /** The method did what the function says: `ok` tells success from an error. */
    ghost predicate Did(r: YamlKeys.Result, ok: bool)
      reads this, queue, queue.tokens
      requires Valid()
    {
      if ok then r == YamlKeys.Ok(View()) else r.Err?
    }

    method InsertToken(pos: int, t: Token)
      requires Valid() && pos <= |View().queue|
      modifies queue, queue.tokens
      ensures Valid() && (queue.tokens == old(queue.tokens) || fresh(queue.tokens))
      ensures YamlKeys.Insert(old(View()), pos, t) == YamlKeys.Ok(View())
    {
      queue.Insert(pos, t);
    }

    method AppendToken(t: Token)
      requires Valid()
      modifies queue, queue.tokens
      ensures Valid() && (queue.tokens == old(queue.tokens) || fresh(queue.tokens))
      ensures View() == YamlKeys.Append(old(View()), t)
    {
      queue.Insert(-1, t);
    }

    method StaleSimpleKeys() returns (ok: bool)
      requires Valid()
      modifies this`keys
      ensures Did(YamlKeys.StaleKeys(old(View())), ok)
    {
      var i := 0;
      ghost var was := keys;
      while i < |keys|
        invariant 0 <= i <= |keys| == |was|
        invariant forall j | 0 <= j < i :: !(YamlKeys.IsStale(was[j], mark) && was[j].required)
        invariant forall j | 0 <= j < i :: keys[j] == if YamlKeys.IsStale(was[j], mark) then was[j].(possible := false) else was[j]
        invariant forall j | i <= j < |keys| :: keys[j] == was[j]
      {
        if YamlKeys.IsStale(keys[i], mark) {
          if keys[i].required {
            assert was[i] in was;
            return false;
          }
          keys := keys[i := keys[i].(possible := false)];
        }
        i := i + 1;
      }
      YamlKeys.StaleIs(was, mark, keys);
      return true;
    }

    method RemoveSimpleKey() returns (ok: bool)
      requires Valid() && |keys| > 0
      modifies this`keys
      ensures Did(YamlKeys.RemoveKey(old(View())), ok)
    {
      var i := |keys| - 1;
      if keys[i].possible && keys[i].required {
        return false;
      }
      keys := keys[i := keys[i].(possible := false)];
      return true;
    }

    method SaveSimpleKey() returns (ok: bool)
      requires Valid() && |keys| > 0
      modifies this`keys
      ensures Did(YamlKeys.SaveKey(old(View())), ok)
    {
      ok := true;
      if allowed {
        var required := flow == 0 && indent == mark.column;
        var key := YamlKeys.SimpleKey(true, required, queue.parsed + (queue.len - queue.head), mark);
        ok := RemoveSimpleKey();
        if ok {
          keys := keys[|keys| - 1 := key];
        }
      }
    }

    method IncreaseFlowLevel()
      requires Valid()
      modifies this`keys, this`flow
      ensures View() == old(View()).(keys := old(keys) + [YamlKeys.NoKey], flow := old(flow) + 1)
    {
      keys := keys + [YamlKeys.NoKey];
      flow := flow + 1;
    }

    method DecreaseFlowLevel()
      requires Valid() && |keys| > 0
      modifies this`keys, this`flow
      ensures Did(YamlKeys.DecreaseFlow(old(View())), true)
    {
      if flow > 0 {
        flow := flow - 1;
        keys := keys[..|keys| - 1];
      }
    }

    method RollIndent(column: int, number: int, typ: TokenType, at: Mark)
      requires Valid() && number - |View().past| <= |View().queue|
      modifies this`indent, this`indents, queue, queue.tokens
      ensures Valid() && (queue.tokens == old(queue.tokens) || fresh(queue.tokens))
      ensures Did(YamlKeys.RollIndent(old(View()), column, number, typ, at), true)
    {
      if flow > 0 {
        return;
      }
      if indent < column {
        indents := indents + [indent];
        indent := column;
        InsertToken(if number > -1 then number - queue.parsed else number, YamlKeys.Bare(typ, at, at));
      }
    }

    method UnrollIndent(column: int)
      requires Valid() && YamlKeys.UnrollIndent(View(), column).Ok?
      modifies this`indent, this`indents, queue, queue.tokens
      ensures Valid() && (queue.tokens == old(queue.tokens) || fresh(queue.tokens))
      ensures Did(YamlKeys.UnrollIndent(old(View()), column), true)
    {
      if flow > 0 {
        return;
      }
      while indent > column
        invariant Valid() && (queue.tokens == old(queue.tokens) || fresh(queue.tokens))
        invariant YamlKeys.UnrollIndent(View(), column) == YamlKeys.UnrollIndent(old(View()), column)
        decreases |indents|
      {
        AppendToken(YamlKeys.Bare(BlockEndToken, mark, mark));
        indent := indents[|indents| - 1];
        indents := indents[..|indents| - 1];
      }
    }
  
    // ----- The fetchers -----

    method FetchStreamStart()
      requires Valid()
      modifies this, queue, queue.tokens
      ensures Valid() && (queue.tokens == old(queue.tokens) || fresh(queue.tokens))
      ensures Did(YamlKeys.FetchStreamStart(old(View())), true)
    {
      indent := -1;
      keys := keys + [YamlKeys.NoKey];
      allowed := true;
      started := true;
      AppendToken(YamlKeys.Bare(StreamStartToken, mark, mark).(encoding := encoding));
    }

    /** The first steps of the fetchers of stream ends, directives and document indicators. */
    method ResetLine() returns (ok: bool)
      requires Valid() && !YamlKeys.ResetLine(View()).Panic?
      modifies this, queue, queue.tokens
      ensures Valid() && (queue.tokens == old(queue.tokens) || fresh(queue.tokens))
      ensures Did(YamlKeys.ResetLine(old(View())), ok)
    {
      YamlKeys.UnrollNoError(View(), -1);
      UnrollIndent(-1);
      ok := RemoveSimpleKey();
      if ok {
        allowed := false;
      }
    }

    method FetchStreamEnd() returns (ok: bool)
      requires Valid() && !YamlKeys.FetchStreamEnd(View()).Panic?
      modifies this, queue, queue.tokens
      ensures Valid() && (queue.tokens == old(queue.tokens) || fresh(queue.tokens))
      ensures Did(YamlKeys.FetchStreamEnd(old(View())), ok)
    {
      if mark.column != 0 {
        mark := Mark(mark.index, mark.line + 1, 0);
      }
      ghost var s := View();
      assert YamlKeys.FetchStreamEnd(old(View())) == YamlKeys.EndStream(s);
      YamlKeys.ResetLineFrame(s);
      ok := ResetLine();
      if ok {
        AppendToken(YamlKeys.Bare(StreamEndToken, mark, mark));
      }
    }

    method FetchLine(scanned: Option<YamlKeys.TextToken>, end: YamlKeys.Place) returns (ok: bool)
      requires Valid() && !YamlKeys.FetchLine(View(), scanned, end).Panic?
      modifies this, queue, queue.tokens
      ensures Valid() && (queue.tokens == old(queue.tokens) || fresh(queue.tokens))
      ensures Did(YamlKeys.FetchLine(old(View()), scanned, end), ok)
    {
      ok := ResetLine();
      if ok {
        if scanned.None? {
          return false;
        }
        mark := end;
        AppendToken(scanned.value);
      }
    }

    method FetchFlowCollectionStart(typ: YamlKeys.TextType, end: YamlKeys.Place) returns (ok: bool)
      requires Valid() && |keys| > 0
      modifies this, queue, queue.tokens
      ensures Valid() && (queue.tokens == old(queue.tokens) || fresh(queue.tokens))
      ensures Did(YamlKeys.FetchFlowOpen(old(View()), typ, end), ok)
    {
      ok := SaveSimpleKey();
      if ok {
        IncreaseFlowLevel();
        allowed := true;
        var start := mark;
        mark := end;
        AppendToken(YamlKeys.Bare(typ, start, end));
      }
    }

    method FetchFlowCollectionEnd(typ: YamlKeys.TextType, end: YamlKeys.Place) returns (ok: bool)
      requires Valid() && |keys| > 0
      modifies this, queue, queue.tokens
      ensures Valid() && (queue.tokens == old(queue.tokens) || fresh(queue.tokens))
      ensures Did(YamlKeys.FetchFlowClose(old(View()), typ, end), ok)
    {
      ok := RemoveSimpleKey();
      if ok {
        DecreaseFlowLevel();
        allowed := false;
        var start := mark;
        mark := end;
        AppendToken(YamlKeys.Bare(typ, start, end));
      }
    }

    method FetchFlowEntry(end: YamlKeys.Place) returns (ok: bool)
      requires Valid() && |keys| > 0
      modifies this, queue, queue.tokens
      ensures Valid() && (queue.tokens == old(queue.tokens) || fresh(queue.tokens))
      ensures Did(YamlKeys.FetchFlowEntry(old(View()), end), ok)
    {
      ok := RemoveSimpleKey();
      if ok {
        allowed := true;
        var start := mark;
        mark := end;
        AppendToken(YamlKeys.Bare(FlowEntryToken, start, end));
      }
    }

    method FetchBlockEntry(end: YamlKeys.Place) returns (ok: bool)
      requires Valid() && |keys| > 0
      modifies this, queue, queue.tokens
      ensures Valid() && (queue.tokens == old(queue.tokens) || fresh(queue.tokens))
      ensures Did(YamlKeys.FetchBlockEntry(old(View()), end), ok)
    {
      if flow == 0 {
        if !allowed {
          return false;
        }
        RollIndent(mark.column, -1, BlockSequenceStartToken, mark);
      }
      ok := RemoveSimpleKey();
      if ok {
        allowed := true;
        var start := mark;
        mark := end;
        AppendToken(YamlKeys.Bare(BlockEntryToken, start, end));
      }
    }

    method FetchKey(end: YamlKeys.Place) returns (ok: bool)
      requires Valid() && |keys| > 0
      modifies this, queue, queue.tokens
      ensures Valid() && (queue.tokens == old(queue.tokens) || fresh(queue.tokens))
      ensures Did(YamlKeys.FetchKey(old(View()), end), ok)
    {
      if flow == 0 {
        if !allowed {
          return false;
        }
        RollIndent(mark.column, -1, BlockMappingStartToken, mark);
      }
      ok := RemoveSimpleKey();
      if ok {
        allowed := flow == 0;
        var start := mark;
        mark := end;
        AppendToken(YamlKeys.Bare(KeyToken, start, end));
      }
    }

    /** KEY goes in where the key on top began. */
    method InsertKey(key: YamlKeys.SimpleKey)
      requires Valid() && key.number >= |View().past| && key.number - |View().past| <= |View().queue|
      modifies queue, queue.tokens
      ensures Valid() && (queue.tokens == old(queue.tokens) || fresh(queue.tokens))
      ensures YamlKeys.Insert(old(View()), key.number - |old(View()).past|, YamlKeys.Bare(KeyToken, key.mark, key.mark)) == YamlKeys.Ok(View())
    {
      InsertToken(key.number - queue.parsed, YamlKeys.Bare(KeyToken, key.mark, key.mark));
    }

    /** KEY, and BLOCK-MAPPING-START where a level opens. */
    method PlaceKey(key: YamlKeys.SimpleKey)
      requires Valid() && |keys| > 0 && key == keys[|keys| - 1]
      requires key.number >= |View().past| && key.number - |View().past| <= |View().queue|
      modifies this`indent, this`indents, queue, queue.tokens
      ensures Valid() && (queue.tokens == old(queue.tokens) || fresh(queue.tokens))
      ensures YamlKeys.KeyPlaced(old(View()), View())
    {
      ghost var was := View();
      InsertKey(key);
      ghost var inserted := View();
      RollIndent(key.mark.column, key.number, BlockMappingStartToken, key.mark);
      YamlKeys.PlacedSteps(was, key, inserted, View());
    }

    method KeyFound()
      requires Valid() && |keys| > 0 && keys[|keys| - 1].number >= |View().past| && YamlKeys.KeyFound(View()).Ok?
      modifies this, queue, queue.tokens
      ensures Valid() && (queue.tokens == old(queue.tokens) || fresh(queue.tokens))
      ensures Did(YamlKeys.KeyFound(old(View())), true)
    {
      ghost var was := View();
      var key := keys[|keys| - 1];
      YamlKeys.KeyFits(was);
      PlaceKey(key);
      YamlKeys.KeyFoundIs(was, View());
      ClearKey(key);
    }

    /** The key on top is no longer possible. */
    method ClearKey(key: YamlKeys.SimpleKey)
      requires Valid() && |keys| > 0
      modifies this`keys, this`allowed
      ensures Valid() && View() == old(View()).(keys := old(keys)[|old(keys)| - 1 := key.(possible := false)], allowed := false)
    {
      keys := keys[|keys| - 1 := key.(possible := false)];
      allowed := false;
    }

    method FetchValue(end: YamlKeys.Place) returns (ok: bool)
      requires Valid() && YamlKeys.Inv(View())
      modifies this, queue, queue.tokens
      ensures Valid() && (queue.tokens == old(queue.tokens) || fresh(queue.tokens))
      ensures Did(YamlKeys.FetchValue(old(View()), end), ok)
    {
      YamlKeys.ValueReady(View());
      if keys[|keys| - 1].possible {
        KeyFound();
      } else {
        if flow == 0 {
          if !allowed {
            return false;
          }
          RollIndent(mark.column, -1, BlockMappingStartToken, mark);
        }
        allowed := flow == 0;
      }
      var start := mark;
      mark := end;
      AppendToken(YamlKeys.Bare(ValueToken, start, end));
      return true;
    }

    /** Anchors, aliases, tags, flow scalars and plain scalars. */
    method FetchNode(scanned: Option<YamlKeys.TextToken>, thenAllowed: bool, end: YamlKeys.Place) returns (ok: bool)
      requires Valid() && |keys| > 0
      modifies this, queue, queue.tokens
      ensures Valid() && (queue.tokens == old(queue.tokens) || fresh(queue.tokens))
      ensures Did(YamlKeys.FetchNode(old(View()), scanned, thenAllowed, end), ok)
    {
      ok := SaveSimpleKey();
      if ok {
        if scanned.None? {
          return false;
        }
        allowed := thenAllowed;
        mark := end;
        AppendToken(scanned.value);
      }
    }

    method FetchBlockScalar(scanned: Option<YamlKeys.TextToken>, end: YamlKeys.Place) returns (ok: bool)
      requires Valid() && |keys| > 0
      modifies this, queue, queue.tokens
      ensures Valid() && (queue.tokens == old(queue.tokens) || fresh(queue.tokens))
      ensures Did(YamlKeys.FetchBlockScalar(old(View()), scanned, end), ok)
    {
      ok := RemoveSimpleKey();
      if ok {
        if scanned.None? {
          return false;
        }
        allowed := true;
        mark := end;
        AppendToken(scanned.value);
      }
    }
  
    // ----- The dispatcher and the parser's side of the queue -----

    method Dispatch(what: YamlKeys.Lexeme, end: YamlKeys.Place) returns (ok: bool)
      requires Valid() && YamlKeys.Inv(View())
      modifies this, queue, queue.tokens
      ensures Valid() && (queue.tokens == old(queue.tokens) || fresh(queue.tokens))
      ensures Did(YamlKeys.Dispatch(old(View()), what, end), ok)
    {
      YamlKeys.ValueReady(View());
      YamlKeys.DispatchOk(View(), what, end);
      match what {
        case EndOfStream => ok := FetchStreamEnd();
        case DirectiveLine(scanned) => ok := FetchLine(scanned, end);
        case DocumentMark(typ) => ok := FetchLine(Some(YamlKeys.Bare(typ, mark, end)), end);
        case FlowOpen(typ) => ok := FetchFlowCollectionStart(typ, end);
        case FlowClose(typ) => ok := FetchFlowCollectionEnd(typ, end);
        case Comma => ok := FetchFlowEntry(end);
        case Dash => ok := FetchBlockEntry(end);
        case QuestionMark => ok := FetchKey(end);
        case Colon => ok := FetchValue(end);
        case NodeStart(scanned, thenAllowed) => ok := FetchNode(scanned, thenAllowed, end);
        case BlockScalar(scanned) => ok := FetchBlockScalar(scanned, end);
        case Nothing => ok := false;
      }
    }

    /** The input says what the scan to the next token finds. */
    method FetchNextToken(i: YamlKeys.Input) returns (ok: bool)
      requires Valid() && YamlKeys.Reachable(View())
      modifies this, queue, queue.tokens
      ensures Valid() && (queue.tokens == old(queue.tokens) || fresh(queue.tokens))
      ensures Did(YamlKeys.FetchNext(old(View()), i), ok)
      ensures ok ==> YamlKeys.Inv(View())
    {
      YamlKeys.FetchNextOk(View(), i);
      if !started {
        FetchStreamStart();
        return true;
      }
      YamlKeys.StartedInv(View());
      allowed := allowed || (i.newLine && flow == 0);
      mark := i.at;
      YamlKeys.Elsewhere(old(View()), mark, allowed);
      YamlKeys.StaleKeeps(View());
      ok := StaleSimpleKeys();
      if ok {
        YamlKeys.UnrollKeeps(View(), i.at.column);
        UnrollIndent(i.at.column);
        ok := Dispatch(i.what, i.end);
      }
    }
  
    /** Some possible key stands for the token at the head of the queue. */
    method HeadIsKey() returns (yes: bool)
      requires Valid() && |View().queue| > 0
      ensures yes == YamlKeys.Blocked(View())
    {
      var i := 0;
      while i < |keys|
        invariant 0 <= i <= |keys|
        invariant forall j | 0 <= j < i :: !(keys[j].possible && keys[j].number == queue.parsed)
      {
        if keys[i].possible && keys[i].number == queue.parsed {
          assert keys[i] in keys;
          return true;
        }
        i := i + 1;
      }
      return false;
    }

    /** `rest` are the inputs not used; without success, fetching failed or the inputs ran out. */
    method FetchMoreTokens(inputs: seq<YamlKeys.Input>) returns (ok: bool, rest: seq<YamlKeys.Input>)
      requires Valid() && YamlKeys.Reachable(View())
      modifies this, queue, queue.tokens
      ensures Valid() && (queue.tokens == old(queue.tokens) || fresh(queue.tokens))
      ensures ok == YamlKeys.FetchMore(old(View()), inputs).Ready?
      ensures ok ==> available && YamlKeys.FetchMore(old(View()), inputs) == YamlKeys.Ready(View(), rest)
    {
      rest := inputs;
      while true
        invariant Valid() && (queue.tokens == old(queue.tokens) || fresh(queue.tokens))
        invariant YamlKeys.Reachable(View())
        invariant YamlKeys.FetchMore(View(), rest) == YamlKeys.FetchMore(old(View()), inputs)
        decreases |rest|
      {
        var needMore;
        ok, needMore := NeedMoreTokens();
        if !ok {
          return;
        }
        if !needMore {
          break;
        }
        if |rest| == 0 {
          return false, rest;
        }
        ok := FetchNextToken(rest[0]);
        rest := rest[1..];
        if !ok {
          return;
        }
      }
      available := true;
    }

    method NeedMoreTokens() returns (ok: bool, yes: bool)
      requires Valid() && YamlKeys.Reachable(View())
      modifies this`keys
      ensures Did(if |old(View()).queue| == 0 then YamlKeys.Ok(old(View())) else YamlKeys.StaleKeys(old(View())), ok)
      ensures ok ==> YamlKeys.Reachable(View()) && yes == YamlKeys.Blocked(View())
    {
      if queue.head == queue.len {
        return true, true;
      }
      YamlKeys.StaleKeeps(View());
      yes := false;
      ok := StaleSimpleKeys();
      if ok {
        yes := HeadIsKey();
      }
    }

    /** A token that may be looked at: no key can still be found before it. */
    ghost predicate Peekable()
      reads this, queue, queue.tokens
    {
      Valid() && available && YamlKeys.Inv(View()) && !YamlKeys.Blocked(View())
    }

    method PeekToken(inputs: seq<YamlKeys.Input>) returns (t: Option<Token>, rest: seq<YamlKeys.Input>)
      requires Valid() && YamlKeys.Reachable(View()) && (available ==> Peekable())
      modifies this, queue, queue.tokens
      ensures Valid() && (queue.tokens == old(queue.tokens) || fresh(queue.tokens))
      ensures t.Some? ==> Peekable() && View().past == old(View().past) && t.value == View().queue[0]
      ensures t.None? ==> !YamlKeys.FetchMore(old(View()), inputs).Ready?
    {
      rest := inputs;
      if !available {
        YamlKeys.FetchMoreOk(View(), inputs);
        var ok;
        ok, rest := FetchMoreTokens(inputs);
        if !ok {
          return None, rest;
        }
      }
      t := Some(queue.tokens[queue.head]);
    }

    /** Must follow a successful peek. */
    method SkipToken()
      requires Peekable()
      modifies this, queue
      ensures Valid() && queue.tokens == old(queue.tokens) && !available
      ensures View() == YamlKeys.Skip(old(View())) && YamlKeys.Inv(View())
    {
      YamlKeys.SkipOk(View());
      available := false;
      var _ := queue.Skip();
    }
  }
}
