/**
 * The token queue of the scanner with its simple keys and indentation levels.  A `:` may show, many tokens
 * later, that what came before was a key; the KEY token is then inserted where the key began.
 */
module YamlKeys {
  import opened Prelude
  import opened YamlEvents

  /** A place in the input; columns start at zero. */
  type Place = m: Mark | m.column >= 0 witness Mark(0, 0, 0)

  datatype SimpleKey = SimpleKey(possible: bool, required: bool, number: int, mark: Place)

  const NoKey := SimpleKey(false, false, 0, Mark(0, 0, 0))

  /** `past` are the tokens the parser has taken; the source keeps only their number. */
  datatype State = State(
    past: seq<Token>,
    queue: seq<Token>,
    keys: seq<SimpleKey>,
    flow: nat,
    indent: int,
    indents: seq<int>,
    allowed: bool,
    mark: Place,
    started: bool,
    encoding: int)

  datatype Result = Ok(s: State) | Err | Panic

  /** How a token changes the number of open block collections. */
  function Weight(typ: TokenType): int {
    match typ
    case BlockSequenceStartToken => 1
    case BlockMappingStartToken => 1
    case BlockEndToken => -1
    case _ => 0
  }

  /** Block collections are opened and closed by indentation alone, never by a token in the text. */
  type TextType = t: TokenType | Weight(t) == 0 witness ScalarToken

  type TextToken = t: Token | Weight(t.typ) == 0 witness Bare(ScalarToken, Mark(0, 0, 0), Mark(0, 0, 0))

  /** What the dispatcher finds at the next token; scanning a token may fail. */
  datatype Lexeme =
    | EndOfStream
    | DirectiveLine(scanned: Option<TextToken>)
    | DocumentMark(typ: TextType)
    | FlowOpen(typ: TextType)
    | FlowClose(typ: TextType)
    | Comma
    | Dash
    | QuestionMark
    | Colon
    | NodeStart(scanned: Option<TextToken>, thenAllowed: bool)
    | BlockScalar(scanned: Option<TextToken>)
    | Nothing

  /** The next token: where it starts and ends, and whether a line break came before it. */
  datatype Input = Input(at: Place, end: Place, newLine: bool, what: Lexeme)

  function Bare(typ: TokenType, startMark: Mark, endMark: Mark): Token {
    Token(typ, startMark, endMark, 0, [], [], [], AnyScalar, 0, 0)
  }

  // ----- Operations -----

  /** A negative position appends. */
  function Insert(s: State, pos: int, t: Token): Result {
    if pos < 0 then Ok(s.(queue := s.queue + [t]))
    else if pos <= |s.queue| then Ok(s.(queue := s.queue[..pos] + [t] + s.queue[pos..]))
    else Panic
  }

  function Append(s: State, t: Token): State {
    s.(queue := s.queue + [t])
  }

  predicate IsStale(k: SimpleKey, mark: Place) {
    k.possible && (k.mark.line < mark.line || k.mark.index + 1024 < mark.index)
  }

  /** A stale key is given up, unless it was required. */
  function Stale(keys: seq<SimpleKey>, mark: Place): Option<seq<SimpleKey>> {
    if exists k <- keys :: IsStale(k, mark) && k.required then None
    else Some(seq(|keys|, i requires 0 <= i < |keys| => if IsStale(keys[i], mark) then keys[i].(possible := false) else keys[i]))
  }

  lemma StaleIs(keys: seq<SimpleKey>, mark: Place, keys': seq<SimpleKey>)
    requires |keys'| == |keys|
    requires forall j | 0 <= j < |keys| :: !(IsStale(keys[j], mark) && keys[j].required)
    requires forall j | 0 <= j < |keys| ::
      keys'[j] == if IsStale(keys[j], mark) then keys[j].(possible := false) else keys[j]
    ensures Stale(keys, mark) == Some(keys')
  {
    assert keys' == seq(|keys|, i requires 0 <= i < |keys| =>
      if IsStale(keys[i], mark) then keys[i].(possible := false) else keys[i]);
  }

  function StaleKeys(s: State): Result {
    match Stale(s.keys, s.mark)
    case None => Err
    case Some(keys) => Ok(s.(keys := keys))
  }

  function RemoveKey(s: State): Result {
    if |s.keys| == 0 then Panic
    else
      var top := s.keys[|s.keys| - 1];
      if top.possible && top.required then Err
      else Ok(s.(keys := s.keys[|s.keys| - 1 := top.(possible := false)]))
  }

  function SaveKey(s: State): Result {
    if !s.allowed then Ok(s)
    else
      var key := SimpleKey(true, s.flow == 0 && s.indent == s.mark.column, |s.past| + |s.queue|, s.mark);
      var r := RemoveKey(s);
      if !r.Ok? then r else Ok(r.s.(keys := r.s.keys[|r.s.keys| - 1 := key]))
  }

  function DecreaseFlow(s: State): Result {
    if s.flow == 0 then Ok(s)
    else if |s.keys| == 0 then Panic
    else Ok(s.(flow := s.flow - 1, keys := s.keys[..|s.keys| - 1]))
  }

  function RollIndent(s: State, column: int, number: int, typ: TokenType, mark: Mark): Result {
    if s.flow > 0 || s.indent >= column then Ok(s)
    else Insert(s.(indents := s.indents + [s.indent], indent := column),
                if number > -1 then number - |s.past| else number, Bare(typ, mark, mark))
  }

  function UnrollIndent(s: State, column: int): Result
    decreases |s.indents|
  {
    if s.flow > 0 || s.indent <= column then Ok(s)
    else if |s.indents| == 0 then Panic
    else
      var n := |s.indents| - 1;
      UnrollIndent(Append(s, Bare(BlockEndToken, s.mark, s.mark)).(indent := s.indents[n], indents := s.indents[..n]), column)
  }

  lemma {:induction false} UnrollFrame(s: State, column: int)
    ensures UnrollIndent(s, column).Ok? ==> UnrollIndent(s, column).s.mark == s.mark
    decreases |s.indents|
  {
    if s.flow == 0 && s.indent > column && |s.indents| > 0 {
      var n := |s.indents| - 1;
      UnrollFrame(Append(s, Bare(BlockEndToken, s.mark, s.mark)).(indent := s.indents[n], indents := s.indents[..n]), column);
    }
  }

  lemma {:induction false} UnrollNoError(s: State, column: int)
    ensures !UnrollIndent(s, column).Err?
    ensures UnrollIndent(s, column).Ok? ==> UnrollIndent(s, column).s.keys == s.keys
    decreases |s.indents|
  {
    if s.flow == 0 && s.indent > column && |s.indents| > 0 {
      var n := |s.indents| - 1;
      UnrollNoError(Append(s, Bare(BlockEndToken, s.mark, s.mark)).(indent := s.indents[n], indents := s.indents[..n]), column);
    }
  }

  // ----- The fetchers -----

  function FetchStreamStart(s: State): Result {
    Ok(Append(s.(indent := -1, keys := s.keys + [NoKey], allowed := true, started := true),
              StreamStartOf(s)))
  }

  function StreamStartOf(s: State): Token {
    Bare(StreamStartToken, s.mark, s.mark).(encoding := s.encoding)
  }

  /** What the end of the stream, a directive and a document indicator have in common. */
  function ResetLine(s: State): Result {
    var r := UnrollIndent(s, -1);
    if !r.Ok? then r else
    var q := RemoveKey(r.s);
    if !q.Ok? then q else Ok(q.s.(allowed := false))
  }

  lemma ResetLineFrame(s: State)
    ensures ResetLine(s).Ok? ==> ResetLine(s).s.mark == s.mark
  {
    UnrollFrame(s, -1);
  }

  function FetchStreamEnd(s: State): Result {
    var m := if s.mark.column != 0 then Mark(s.mark.index, s.mark.line + 1, 0) else s.mark;
    EndStream(s.(mark := m))
  }

  function EndStream(s: State): Result {
    var r := ResetLine(s);
    if !r.Ok? then r else Ok(Append(r.s, Bare(StreamEndToken, s.mark, s.mark)))
  }

  function FetchFlowOpen(s: State, typ: TextType, end: Place): Result {
    var r := SaveKey(s);
    if !r.Ok? then r
    else Ok(Append(r.s.(keys := r.s.keys + [NoKey], flow := r.s.flow + 1, allowed := true, mark := end), Bare(typ, s.mark, end)))
  }

  function FetchFlowClose(s: State, typ: TextType, end: Place): Result {
    var r := RemoveKey(s);
    if !r.Ok? then r else
    var q := DecreaseFlow(r.s);
    if !q.Ok? then q else Ok(Append(q.s.(allowed := false, mark := end), Bare(typ, s.mark, end)))
  }

  function FetchFlowEntry(s: State, end: Place): Result {
    var r := RemoveKey(s);
    if !r.Ok? then r else Ok(Append(r.s.(allowed := true, mark := end), Bare(FlowEntryToken, s.mark, end)))
  }

  function FetchBlockEntry(s: State, end: Place): Result {
    if s.flow == 0 && !s.allowed then Err else
    var r := if s.flow == 0 then RollIndent(s, s.mark.column, -1, BlockSequenceStartToken, s.mark) else Ok(s);
    if !r.Ok? then r else
    var q := RemoveKey(r.s);
    if !q.Ok? then q else Ok(Append(q.s.(allowed := true, mark := end), Bare(BlockEntryToken, s.mark, end)))
  }

  function FetchKey(s: State, end: Place): Result {
    if s.flow == 0 && !s.allowed then Err else
    var r := if s.flow == 0 then RollIndent(s, s.mark.column, -1, BlockMappingStartToken, s.mark) else Ok(s);
    if !r.Ok? then r else
    var q := RemoveKey(r.s);
    if !q.Ok? then q else Ok(Append(q.s.(allowed := q.s.flow == 0, mark := end), Bare(KeyToken, s.mark, end)))
  }

  /** The simple key on top becomes a key: KEY, and perhaps BLOCK-MAPPING-START, go in where it began. */
  function KeyFound(s: State): Result
    requires |s.keys| > 0
  {
    var key := s.keys[|s.keys| - 1];
    var r := Insert(s, key.number - |s.past|, Bare(KeyToken, key.mark, key.mark));
    if !r.Ok? then r else
    var q := RollIndent(r.s, key.mark.column, key.number, BlockMappingStartToken, key.mark);
    if !q.Ok? then q
    else Ok(q.s.(keys := s.keys[|s.keys| - 1 := key.(possible := false)], allowed := false))
  }

  lemma KeyFits(s: State)
    requires |s.keys| > 0 && s.keys[|s.keys| - 1].number >= |s.past| && KeyFound(s).Ok?
    ensures s.keys[|s.keys| - 1].number - |s.past| <= |s.queue|
  {
  }

  /** KEY, and perhaps BLOCK-MAPPING-START, have gone in. */
  ghost predicate KeyPlaced(s: State, q: State)
    requires |s.keys| > 0
  {
    forall u | u == s :: Places(u, u.keys[|u.keys| - 1], q)
  }

  ghost predicate Places(s: State, key: SimpleKey, q: State) {
    var r := Insert(s, key.number - |s.past|, Bare(KeyToken, key.mark, key.mark));
    r.Ok? && RollIndent(r.s, key.mark.column, key.number, BlockMappingStartToken, key.mark) == Ok(q)
  }

  lemma PlacedSteps(s: State, key: SimpleKey, r: State, q: State)
    requires |s.keys| > 0 && key == s.keys[|s.keys| - 1]
    requires Insert(s, key.number - |s.past|, Bare(KeyToken, key.mark, key.mark)) == Ok(r)
    requires RollIndent(r, key.mark.column, key.number, BlockMappingStartToken, key.mark) == Ok(q)
    ensures KeyPlaced(s, q)
  {
    assert Places(s, key, q);
  }

  lemma KeyFoundIs(s: State, q: State)
    requires |s.keys| > 0 && KeyPlaced(s, q)
    ensures var key := s.keys[|s.keys| - 1];
      KeyFound(s) == Ok(q.(keys := s.keys[|s.keys| - 1 := key.(possible := false)], allowed := false))
  {
    assert Places(s, s.keys[|s.keys| - 1], q);
  }

  function FetchValue(s: State, end: Place): Result {
    if |s.keys| == 0 then Panic else
    var r :=
      if s.keys[|s.keys| - 1].possible then KeyFound(s)
      else if s.flow == 0 && !s.allowed then Err
      else
        var q := if s.flow == 0 then RollIndent(s, s.mark.column, -1, BlockMappingStartToken, s.mark) else Ok(s);
        if !q.Ok? then q else Ok(q.s.(allowed := q.s.flow == 0));
    if !r.Ok? then r else Ok(Append(r.s.(mark := end), Bare(ValueToken, s.mark, end)))
  }

  /** Anchors, aliases, tags, quoted and plain scalars: each may begin a simple key. */
  function FetchNode(s: State, scanned: Option<TextToken>, thenAllowed: bool, end: Place): Result {
    var r := SaveKey(s);
    if !r.Ok? then r
    else if scanned.None? then Err
    else Ok(Append(r.s.(allowed := thenAllowed, mark := end), scanned.value))
  }

  function FetchBlockScalar(s: State, scanned: Option<TextToken>, end: Place): Result {
    var r := RemoveKey(s);
    if !r.Ok? then r
    else if scanned.None? then Err
    else Ok(Append(r.s.(allowed := true, mark := end), scanned.value))
  }

  function FetchLine(s: State, scanned: Option<TextToken>, end: Place): Result {
    var r := ResetLine(s);
    if !r.Ok? then r
    else if scanned.None? then Err
    else Ok(Append(r.s.(mark := end), scanned.value))
  }

  function Dispatch(s: State, what: Lexeme, end: Place): Result {
    match what
    case EndOfStream => FetchStreamEnd(s)
    case DirectiveLine(scanned) => FetchLine(s, scanned, end)
    case DocumentMark(typ) => FetchLine(s, Some(Bare(typ, s.mark, end)), end)
    case FlowOpen(typ) => FetchFlowOpen(s, typ, end)
    case FlowClose(typ) => FetchFlowClose(s, typ, end)
    case Comma => FetchFlowEntry(s, end)
    case Dash => FetchBlockEntry(s, end)
    case QuestionMark => FetchKey(s, end)
    case Colon => FetchValue(s, end)
    case NodeStart(scanned, thenAllowed) => FetchNode(s, scanned, thenAllowed, end)
    case BlockScalar(scanned) => FetchBlockScalar(s, scanned, end)
    case Nothing => Err
  }

  function FetchNext(s: State, i: Input): Result {
    if !s.started then FetchStreamStart(s) else
    var s1 := s.(mark := i.at, allowed := s.allowed || (i.newLine && s.flow == 0));
    var r := StaleKeys(s1);
    if !r.Ok? then r else
    var q := UnrollIndent(r.s, i.at.column);
    if !q.Ok? then q else Dispatch(q.s, i.what, i.end)
  }

  // ----- The invariant -----

  /** Open block collections after the tokens. */
  function Level(ts: seq<Token>): int {
    if |ts| == 0 then 0 else Level(ts[..|ts| - 1]) + Weight(ts[|ts| - 1].typ)
  }

  function Total(s: State): nat {
    |s.past| + |s.queue|
  }

  /** The `n`-th token of the stream, counting those already taken. */
  function At(s: State, n: int): Token
    requires |s.past| <= n < Total(s)
  {
    s.queue[n - |s.past|]
  }

  ghost predicate InRange(keys: seq<SimpleKey>, lo: int, hi: int) {
    forall i | 0 <= i < |keys| && keys[i].possible :: lo <= keys[i].number < hi
  }

  ghost predicate Ordered(keys: seq<SimpleKey>) {
    forall i, j | 0 <= i < j < |keys| && keys[i].possible && keys[j].possible :: keys[i].number < keys[j].number
  }

  /** One key for each flow level; every possible key is a token still in the queue, deeper keys later. */
  ghost predicate KeysOk(s: State) {
    && |s.keys| == s.flow + 1
    && InRange(s.keys, |s.past|, Total(s))
    && Ordered(s.keys)
  }

  /** Indentation levels grow from -1. */
  ghost predicate Chain(indents: seq<int>, indent: int) {
    && (forall i | 0 <= i < |indents| :: -1 <= indents[i] < indent)
    && (forall i, j | 0 <= i < j < |indents| :: indents[i] < indents[j])
    && (if |indents| == 0 then indent == -1 else indents[0] == -1)
  }

  ghost predicate Balanced(s: State) {
    Level(s.past) + Level(s.queue) == |s.indents|
  }

  ghost predicate Holds(s: State) {
    s.started && KeysOk(s) && Chain(s.indents, s.indent) && Balanced(s)
  }

  /** `Holds`, met by a proof only where it asks for it. */
  ghost predicate Inv(s: State) {
    forall u | u == s :: Holds(u)
  }

  /** The invariant does not speak of the position or of the flag. */
  lemma Elsewhere(s: State, mark: Place, allowed: bool)
    requires Inv(s)
    ensures Inv(s.(mark := mark, allowed := allowed))
  {
    assert Holds(s);
  }

  lemma {:induction false} LevelConcat(a: seq<Token>, b: seq<Token>)
    ensures Level(a + b) == Level(a) + Level(b)
    decreases |b|
  {
    if |b| == 0 {
      assert a + b == a;
    } else {
      var n := |b| - 1;
      assert (a + b)[..|a| + n] == a + b[..n];
      LevelConcat(a, b[..n]);
    }
  }

  lemma LevelOne(t: Token)
    ensures Level([t]) == Weight(t.typ)
  {
    assert [t][..0] == [];
  }

  lemma LevelTwo(a: Token, b: Token)
    ensures Level([a, b]) == Weight(a.typ) + Weight(b.typ)
  {
    LevelOne(a);
    LevelOne(b);
    LevelConcat([a], [b]);
    assert [a] + [b] == [a, b];
  }

  // ----- What each operation keeps -----

  lemma AppendKeeps(s: State, t: Token)
    ensures Level(Append(s, t).queue) == Level(s.queue) + Weight(t.typ)
    ensures KeysOk(s) ==> KeysOk(Append(s, t))
  {
    LevelConcat(s.queue, [t]);
    LevelOne(t);
  }

  /** Keys may only have been given up. */
  ghost predicate Fewer(keys: seq<SimpleKey>, keys': seq<SimpleKey>) {
    |keys'| == |keys| && forall i | 0 <= i < |keys| :: keys'[i].possible ==> keys'[i] == keys[i]
  }

  lemma FewerOk(s: State, keys: seq<SimpleKey>)
    requires KeysOk(s) && Fewer(s.keys, keys)
    ensures KeysOk(s.(keys := keys))
  {
  }

  /** An operation that only gives up keys. */
  ghost predicate GivesUp(s: State, r: Result) {
    r.Err? || (r.Ok? && Inv(r.s) && r.s == s.(keys := r.s.keys) && Fewer(s.keys, r.s.keys))
  }

  lemma StaleKeeps(s: State)
    requires Inv(s)
    ensures GivesUp(s, StaleKeys(s))
  {
    assert Holds(s);
    var r := StaleKeys(s);
    if r.Ok? {
      FewerOk(s, r.s.keys);
    }
  }

  lemma RemoveKeeps(s: State)
    requires Inv(s)
    ensures GivesUp(s, RemoveKey(s))
  {
    assert Holds(s);
    var r := RemoveKey(s);
    if r.Ok? {
      FewerOk(s, r.s.keys);
    }
  }

  /** An operation that opens or closes indentation levels with tokens at the end. */
  ghost predicate Indents(s: State, r: Result) {
    && r.Ok? && Inv(r.s) && s.queue <= r.s.queue
    && r.s == s.(queue := r.s.queue, indent := r.s.indent, indents := r.s.indents)
  }

  lemma {:induction false} UnrollKeeps(s: State, column: int)
    requires Inv(s) && column >= -1
    ensures Indents(s, UnrollIndent(s, column))
    decreases |s.indents|
  {
    assert Holds(s);
    if s.flow == 0 && s.indent > column {
      var t := Bare(BlockEndToken, s.mark, s.mark);
      var n := |s.indents| - 1;
      AppendKeeps(s, t);
      var s1 := Append(s, t).(indent := s.indents[n], indents := s.indents[..n]);
      ChainPop(s.indents, s.indent);
      UnrollKeeps(s1, column);
    }
  }

  lemma ChainPop(indents: seq<int>, indent: int)
    requires Chain(indents, indent) && |indents| > 0
    ensures Chain(indents[..|indents| - 1], indents[|indents| - 1])
  {
  }

  lemma ChainPush(indents: seq<int>, indent: int, column: int)
    requires Chain(indents, indent) && indent < column
    ensures Chain(indents + [indent], column)
  {
  }

  lemma RollKeeps(s: State, column: int, typ: TokenType, mark: Mark)
    requires Inv(s) && Weight(typ) == 1
    ensures Indents(s, RollIndent(s, column, -1, typ, mark))
  {
    assert Holds(s);
    if s.flow == 0 && s.indent < column {
      AppendKeeps(s, Bare(typ, mark, mark));
      ChainPush(s.indents, s.indent, column);
    }
  }

  // ----- The fetchers -----

  /** A key still possible stands for the token it stood for, or is new and stands for the last token. */
  ghost predicate Pending(s: State, s': State) {
    && |s.past| == |s'.past|
    && forall k | 0 <= k < |s'.keys| && s'.keys[k].possible :: Same(s, s', k) || s'.keys[k].number == Total(s') - 1
  }

  ghost predicate Same(s: State, s': State, k: nat) {
    && k < |s.keys| && k < |s'.keys| && s.keys[k] == s'.keys[k]
    && |s.past| <= s.keys[k].number < Total(s) && |s'.past| <= s.keys[k].number < Total(s')
    && At(s, s.keys[k].number) == At(s', s.keys[k].number)
  }

  /** What a fetcher promises; an error ends the scan. */
  ghost predicate Fetched(s: State, r: Result) {
    r.Err? || (r.Ok? && Inv(r.s) && r.s.past == s.past && Pending(s, r.s))
  }

  /** Tokens at the end of the queue and keys given up, then one token. */
  lemma AppendedFetch(s: State, s': State, mark: Place, allowed: bool, t: TextToken)
    requires Inv(s) && Inv(s') && s'.past == s.past && s.queue <= s'.queue && Fewer(s.keys, s'.keys)
    ensures Fetched(s, Ok(Append(s'.(mark := mark, allowed := allowed), t)))
  {
    assert Holds(s) && Holds(s');
    AppendKeeps(s', t);
  }

  lemma ResetLineKeeps(s: State)
    requires Inv(s)
    ensures ResetLine(s).Err? ||
      (ResetLine(s).Ok? && Inv(ResetLine(s).s) && ResetLine(s).s.past == s.past
        && s.queue <= ResetLine(s).s.queue && Fewer(s.keys, ResetLine(s).s.keys))
  {
    UnrollKeeps(s, -1);
    var r := UnrollIndent(s, -1);
    RemoveKeeps(r.s);
    var q := RemoveKey(r.s);
    if q.Ok? {
      Elsewhere(q.s, q.s.mark, false);
    }
  }

  lemma FetchLineOk(s: State, scanned: Option<TextToken>, end: Place)
    requires Inv(s)
    ensures Fetched(s, FetchLine(s, scanned, end))
  {
    ResetLineKeeps(s);
    var q := ResetLine(s);
    if q.Ok? && scanned.Some? {
      AppendedFetch(s, q.s, end, false, scanned.value);
    }
  }

  lemma FetchStreamEndOk(s: State)
    requires Inv(s)
    ensures Fetched(s, FetchStreamEnd(s))
  {
    var m := if s.mark.column != 0 then Mark(s.mark.index, s.mark.line + 1, 0) else s.mark;
    var s0 := s.(mark := m);
    Elsewhere(s, m, s.allowed);
    ResetLineKeeps(s0);
    var q := ResetLine(s0);
    if q.Ok? {
      AppendedFetch(s, q.s, q.s.mark, q.s.allowed, Bare(StreamEndToken, m, m));
    }
  }

  lemma FetchFlowEntryOk(s: State, end: Place)
    requires Inv(s)
    ensures Fetched(s, FetchFlowEntry(s, end))
  {
    RemoveKeeps(s);
    var r := RemoveKey(s);
    if r.Ok? {
      AppendedFetch(s, r.s, end, true, Bare(FlowEntryToken, s.mark, end));
    }
  }

  lemma FetchBlockScalarOk(s: State, scanned: Option<TextToken>, end: Place)
    requires Inv(s)
    ensures Fetched(s, FetchBlockScalar(s, scanned, end))
  {
    RemoveKeeps(s);
    var r := RemoveKey(s);
    if r.Ok? && scanned.Some? {
      AppendedFetch(s, r.s, end, true, scanned.value);
    }
  }

  lemma FetchBlockEntryOk(s: State, end: Place)
    requires Inv(s)
    ensures Fetched(s, FetchBlockEntry(s, end))
  {
    RollKeeps(s, s.mark.column, BlockSequenceStartToken, s.mark);
    var r := if s.flow == 0 then RollIndent(s, s.mark.column, -1, BlockSequenceStartToken, s.mark) else Ok(s);
    RemoveKeeps(r.s);
    var q := RemoveKey(r.s);
    if q.Ok? {
      AppendedFetch(s, q.s, end, true, Bare(BlockEntryToken, s.mark, end));
    }
  }

  lemma FetchKeyOk(s: State, end: Place)
    requires Inv(s)
    ensures Fetched(s, FetchKey(s, end))
  {
    RollKeeps(s, s.mark.column, BlockMappingStartToken, s.mark);
    var r := if s.flow == 0 then RollIndent(s, s.mark.column, -1, BlockMappingStartToken, s.mark) else Ok(s);
    RemoveKeeps(r.s);
    var q := RemoveKey(r.s);
    if q.Ok? {
      AppendedFetch(s, q.s, end, q.s.flow == 0, Bare(KeyToken, s.mark, end));
    }
  }

  /** The last flow level goes, with its key. */
  lemma DecreaseKeeps(s: State)
    requires Inv(s)
    ensures DecreaseFlow(s).Ok? && Inv(DecreaseFlow(s).s)
  {
    assert Holds(s);
  }

  /** Closing a level gives up keys too, counted as keys of the lower levels. */
  lemma FetchFlowCloseOk(s: State, typ: TextType, end: Place)
    requires Inv(s)
    ensures Fetched(s, FetchFlowClose(s, typ, end))
  {
    RemoveKeeps(s);
    var r := RemoveKey(s);
    if r.Ok? {
      DecreaseKeeps(r.s);
      var q := DecreaseFlow(r.s);
      ShorterFetch(s, q.s, end, false, Bare(typ, s.mark, end));
    }
  }

  lemma ShorterFetch(s: State, s': State, mark: Place, allowed: bool, t: TextToken)
    requires Inv(s) && Inv(s') && s'.past == s.past && s.queue == s'.queue
    requires |s'.keys| <= |s.keys| && forall i | 0 <= i < |s'.keys| :: s'.keys[i].possible ==> s'.keys[i] == s.keys[i]
    ensures Fetched(s, Ok(Append(s'.(mark := mark, allowed := allowed), t)))
  {
    assert Holds(s) && Holds(s');
    AppendKeeps(s', t);
  }

  // ----- New keys -----

  /** The key on top stays, or is replaced by one for the token to come. */
  ghost predicate Saves(s: State, r: Result) {
    r.Err? ||
    (&& r.Ok? && r.s == s.(keys := r.s.keys) && |r.s.keys| == |s.keys| == s.flow + 1
     && (forall i | 0 <= i < s.flow :: r.s.keys[i] == s.keys[i])
     && (r.s.keys[s.flow] == s.keys[s.flow] || r.s.keys[s.flow].number == Total(s)))
  }

  lemma SaveKeeps(s: State)
    requires Inv(s)
    ensures Saves(s, SaveKey(s))
  {
    assert Holds(s);
  }

  /** The token of a saved key arrives. */
  lemma SavedFetch(s: State, s': State, mark: Place, allowed: bool, t: TextToken)
    requires Inv(s) && Saves(s, Ok(s'))
    ensures Fetched(s, Ok(Append(s'.(mark := mark, allowed := allowed), t)))
  {
    assert Holds(s);
    AppendKeeps(s', t);
  }

  lemma FetchNodeOk(s: State, scanned: Option<TextToken>, thenAllowed: bool, end: Place)
    requires Inv(s)
    ensures Fetched(s, FetchNode(s, scanned, thenAllowed, end))
  {
    SaveKeeps(s);
    var r := SaveKey(s);
    if r.Ok? && scanned.Some? {
      SavedFetch(s, r.s, end, thenAllowed, scanned.value);
    }
  }

  /** A new flow level starts without a key. */
  lemma IncreaseFetch(s: State, s': State)
    requires Fetched(s, Ok(s'))
    ensures Fetched(s, Ok(s'.(keys := s'.keys + [NoKey], flow := s'.flow + 1)))
  {
    assert Holds(s');
    var s'' := s'.(keys := s'.keys + [NoKey], flow := s'.flow + 1);
    forall k | 0 <= k < |s''.keys| && s''.keys[k].possible
      ensures Same(s, s'', k) || s''.keys[k].number == Total(s'') - 1
    {
      assert s''.keys[k] == s'.keys[k] && s'.keys[k].possible;
      assert Same(s, s', k) || s'.keys[k].number == Total(s') - 1;
    }
  }

  lemma FetchFlowOpenOk(s: State, typ: TextType, end: Place)
    requires Inv(s)
    ensures Fetched(s, FetchFlowOpen(s, typ, end))
  {
    SaveKeeps(s);
    var r := SaveKey(s);
    if r.Ok? {
      var t := Bare(typ, s.mark, end);
      SavedFetch(s, r.s, end, true, t);
      IncreaseFetch(s, Append(r.s.(mark := end, allowed := true), t));
    }
  }

  // ----- A simple key found to be a key -----

  function Top(s: State): SimpleKey
    requires |s.keys| > 0
  {
    s.keys[|s.keys| - 1]
  }

  /** What goes in before the key's first token. */
  function KeyTokens(s: State): seq<Token>
    requires |s.keys| > 0
  {
    var m := Top(s).mark;
    if s.flow == 0 && s.indent < m.column then [Bare(BlockMappingStartToken, m, m), Bare(KeyToken, m, m)]
    else [Bare(KeyToken, m, m)]
  }

  function Spliced(q: seq<Token>, n: nat, ts: seq<Token>): seq<Token>
    requires n <= |q|
  {
    q[..n] + ts + q[n..]
  }

  lemma SpliceTwice(q: seq<Token>, n: nat, a: Token, b: Token)
    requires n <= |q|
    ensures Spliced(Spliced(q, n, [b]), n, [a]) == Spliced(q, n, [a, b])
  {
    var q1 := Spliced(q, n, [b]);
    assert q1[..n] == q[..n] && q1[n..] == [b] + q[n..];
  }

  lemma LevelSpliced(q: seq<Token>, n: nat, ts: seq<Token>)
    requires n <= |q|
    ensures Level(Spliced(q, n, ts)) == Level(q) + Level(ts)
  {
    LevelConcat(q[..n] + ts, q[n..]);
    LevelConcat(q[..n], ts);
    LevelConcat(q[..n], q[n..]);
    assert q[..n] + q[n..] == q;
  }

  ghost predicate AllSame(s: State, s': State) {
    && |s.past| == |s'.past|
    && forall k | 0 <= k < |s'.keys| && s'.keys[k].possible :: Same(s, s', k)
  }

  /** The tokens go in exactly before the token the key stands for, inside the queue. */
  lemma KeyFoundExact(s: State)
    requires Inv(s) && |s.keys| > 0 && Top(s).possible
    ensures 0 <= Top(s).number - |s.past| < |s.queue|
    ensures KeyFound(s).Ok?
    ensures KeyFound(s).s == s.(
      queue := Spliced(s.queue, Top(s).number - |s.past|, KeyTokens(s)),
      keys := s.keys[|s.keys| - 1 := Top(s).(possible := false)],
      indents := if |KeyTokens(s)| == 2 then s.indents + [s.indent] else s.indents,
      indent := if |KeyTokens(s)| == 2 then Top(s).mark.column else s.indent,
      allowed := false)
  {
    assert Holds(s);
    var m := Top(s).mark;
    SpliceTwice(s.queue, Top(s).number - |s.past|, Bare(BlockMappingStartToken, m, m), Bare(KeyToken, m, m));
  }

  lemma KeyFoundIndents(s: State)
    requires Inv(s) && |s.keys| > 0 && Top(s).possible
    ensures KeyFound(s).Ok? && Chain(KeyFound(s).s.indents, KeyFound(s).s.indent) && Balanced(KeyFound(s).s)
  {
    assert Holds(s);
    KeyFoundExact(s);
    var m := Top(s).mark;
    LevelSpliced(s.queue, Top(s).number - |s.past|, KeyTokens(s));
    LevelOne(Bare(KeyToken, m, m));
    LevelTwo(Bare(BlockMappingStartToken, m, m), Bare(KeyToken, m, m));
    if |KeyTokens(s)| == 2 {
      ChainPush(s.indents, s.indent, m.column);
    }
  }

  /** Every other pending key began earlier, so its token does not move. */
  lemma KeyFoundKeys(s: State, s': State, n: nat, ts: seq<Token>)
    requires Inv(s) && |s.keys| > 0 && Top(s).possible && n == Top(s).number - |s.past| < |s.queue|
    requires s'.past == s.past && s'.flow == s.flow && s'.queue == Spliced(s.queue, n, ts)
    requires s'.keys == s.keys[|s.keys| - 1 := Top(s).(possible := false)]
    ensures KeysOk(s') && AllSame(s, s')
  {
    assert Holds(s);
    assert forall i | 0 <= i < n :: s'.queue[i] == s.queue[i];
  }

  lemma KeyFoundKeeps(s: State)
    requires Inv(s) && |s.keys| > 0 && Top(s).possible
    ensures KeyFound(s).Ok? && Inv(KeyFound(s).s) && KeyFound(s).s.past == s.past && AllSame(s, KeyFound(s).s)
  {
    KeyFoundExact(s);
    KeyFoundIndents(s);
    KeyFoundKeys(s, KeyFound(s).s, Top(s).number - |s.past|, KeyTokens(s));
    assert s.started by {
      assert Holds(s);
    }
    assert Holds(KeyFound(s).s);
  }

  lemma PendingAfter(s: State, s1: State, s2: State)
    requires AllSame(s, s1) && Pending(s1, s2)
    ensures Pending(s, s2)
  {
    forall k | 0 <= k < |s2.keys| && s2.keys[k].possible
      ensures Same(s, s2, k) || s2.keys[k].number == Total(s2) - 1
    {
      assert Same(s1, s2, k) || s2.keys[k].number == Total(s2) - 1;
      assert Same(s1, s2, k) ==> Same(s, s1, k);
    }
  }

  /** What `FetchValue` relies on. */
  lemma ValueReady(s: State)
    requires Inv(s)
    ensures |s.keys| > 0
    ensures Top(s).possible ==> KeyFound(s).Ok? && Top(s).number >= |s.past|
  {
    assert Holds(s);
    if Top(s).possible {
      KeyFoundExact(s);
    }
  }

  lemma FetchValueOk(s: State, end: Place)
    requires Inv(s)
    ensures Fetched(s, FetchValue(s, end))
  {
    assert Holds(s);
    var t := Bare(ValueToken, s.mark, end);
    if Top(s).possible {
      KeyFoundKeeps(s);
      var s1 := KeyFound(s).s;
      AppendedFetch(s1, s1, end, s1.allowed, t);
      PendingAfter(s, s1, Append(s1.(mark := end), t));
    } else {
      RollKeeps(s, s.mark.column, BlockMappingStartToken, s.mark);
      var q := if s.flow == 0 then RollIndent(s, s.mark.column, -1, BlockMappingStartToken, s.mark) else Ok(s);
      AppendedFetch(s, q.s, end, q.s.flow == 0, t);
    }
  }

  lemma DispatchOk(s: State, what: Lexeme, end: Place)
    requires Inv(s)
    ensures Fetched(s, Dispatch(s, what, end))
  {
    match what
    case EndOfStream => FetchStreamEndOk(s);
    case DirectiveLine(scanned) => FetchLineOk(s, scanned, end);
    case DocumentMark(typ) => FetchLineOk(s, Some(Bare(typ, s.mark, end)), end);
    case FlowOpen(typ) => FetchFlowOpenOk(s, typ, end);
    case FlowClose(typ) => FetchFlowCloseOk(s, typ, end);
    case Comma => FetchFlowEntryOk(s, end);
    case Dash => FetchBlockEntryOk(s, end);
    case QuestionMark => FetchKeyOk(s, end);
    case Colon => FetchValueOk(s, end);
    case NodeStart(scanned, thenAllowed) => FetchNodeOk(s, scanned, thenAllowed, end);
    case BlockScalar(scanned) => FetchBlockScalarOk(s, scanned, end);
    case Nothing =>
  }

  /** A scanner that has not read anything. */
  predicate Fresh(s: State) {
    !s.started && |s.past| == 0 && |s.queue| == 0 && |s.keys| == 0 && s.flow == 0 && |s.indents| == 0
  }

  ghost predicate Reachable(s: State) {
    Fresh(s) || Inv(s)
  }

  lemma StartedInv(s: State)
    requires Reachable(s) && s.started
    ensures Inv(s)
  {
  }

  lemma FewerSame(s: State, s': State)
    requires Inv(s) && s'.past == s.past && s.queue <= s'.queue && Fewer(s.keys, s'.keys)
    ensures AllSame(s, s')
  {
    assert Holds(s);
  }

  /** Fetching never indexes out of range, and keeps the invariant and the meaning of every pending key. */
  lemma FetchNextOk(s: State, i: Input)
    requires Reachable(s)
    ensures Fetched(s, FetchNext(s, i))
  {
    if Fresh(s) {
      StartOk(s);
    } else {
      assert s.started by { assert Holds(s); }
      var s1 := s.(mark := i.at, allowed := s.allowed || (i.newLine && s.flow == 0));
      Elsewhere(s, i.at, s1.allowed);
      StaleKeeps(s1);
      var r := StaleKeys(s1);
      if r.Ok? {
        UnrollKeeps(r.s, i.at.column);
        var q := UnrollIndent(r.s, i.at.column);
        FewerSame(s, q.s);
        DispatchOk(q.s, i.what, i.end);
        var d := Dispatch(q.s, i.what, i.end);
        if d.Ok? {
          PendingAfter(s, q.s, d.s);
        }
      }
    }
  }

  lemma StartOk(s: State)
    requires Fresh(s)
    ensures Fetched(s, FetchStreamStart(s))
  {
    LevelOne(StreamStartOf(s));
    var s' := FetchStreamStart(s).s;
    assert s'.queue == [StreamStartOf(s)] && s'.keys == [NoKey];
    assert Holds(s');
  }

  // ----- Handing tokens to the parser -----

  /** A token may be taken unless a pending key could still put something before it. */
  predicate Blocked(s: State) {
    |s.queue| == 0 || exists k <- s.keys :: k.possible && k.number == |s.past|
  }

  datatype More = Ready(s: State, rest: seq<Input>) | Stopped | Starved | Crashed

  /** Fetch until the head of the queue can be taken; `Starved` when the inputs run out first. */
  function FetchMore(s: State, inputs: seq<Input>): More
    decreases |inputs|
  {
    var r := if |s.queue| == 0 then Ok(s) else StaleKeys(s);
    match r
    case Panic => Crashed
    case Err => Stopped
    case Ok(s1) =>
      if !Blocked(s1) then Ready(s1, inputs)
      else if |inputs| == 0 then Starved
      else
        match FetchNext(s1, inputs[0])
        case Panic => Crashed
        case Err => Stopped
        case Ok(s2) => FetchMore(s2, inputs[1..])
  }

  function Skip(s: State): State
    requires |s.queue| > 0
  {
    s.(past := s.past + [s.queue[0]], queue := s.queue[1..])
  }

  lemma {:induction false} FetchMoreOk(s: State, inputs: seq<Input>)
    requires Reachable(s)
    ensures !FetchMore(s, inputs).Crashed?
    ensures FetchMore(s, inputs).Ready? ==>
      && Inv(FetchMore(s, inputs).s) && !Blocked(FetchMore(s, inputs).s)
      && FetchMore(s, inputs).s.past == s.past
    decreases |inputs|
  {
    var r := if |s.queue| == 0 then Ok(s) else StaleKeys(s);
    if |s.queue| > 0 {
      StaleKeeps(s);
    }
    if r.Ok? && Blocked(r.s) && |inputs| > 0 {
      FetchNextOk(r.s, inputs[0]);
      var q := FetchNext(r.s, inputs[0]);
      if q.Ok? {
        FetchMoreOk(q.s, inputs[1..]);
      }
    }
  }

  /** The token taken is not one a pending key stands for. */
  lemma SkipOk(s: State)
    requires Inv(s) && !Blocked(s)
    ensures Inv(Skip(s)) && forall k | 0 <= k < |s.keys| && s.keys[k].possible :: Same(s, Skip(s), k)
  {
    assert Holds(s);
    LevelOne(s.queue[0]);
    LevelConcat(s.past, [s.queue[0]]);
    LevelConcat([s.queue[0]], s.queue[1..]);
    assert [s.queue[0]] + s.queue[1..] == s.queue;
    SkipKeys(s);
    assert Holds(Skip(s));
  }

  lemma SkipKeys(s: State)
    requires Holds(s) && !Blocked(s)
    ensures KeysOk(Skip(s)) && forall k | 0 <= k < |s.keys| && s.keys[k].possible :: Same(s, Skip(s), k)
  {
    assert forall k | 0 <= k < |s.keys| && s.keys[k].possible :: s.keys[k] in s.keys && s.keys[k].number > |s.past|;
  }

  // ----- Whole runs -----

  /** The parser takes `n` tokens, fetching as needed. */
  function Drive(s: State, inputs: seq<Input>, n: nat): More
    decreases n
  {
    if n == 0 then Ready(s, inputs)
    else
      match FetchMore(s, inputs)
      case Ready(s1, rest) => if |s1.queue| == 0 then Crashed else Drive(Skip(s1), rest, n - 1)
      case other => other
  }

  /** However the text continues, no run goes out of range; tokens taken stay as they were taken. */
  lemma {:induction false} DriveOk(s: State, inputs: seq<Input>, n: nat)
    requires Reachable(s)
    ensures !Drive(s, inputs, n).Crashed?
    ensures Drive(s, inputs, n).Ready? ==>
      && Reachable(Drive(s, inputs, n).s)
      && s.past <= Drive(s, inputs, n).s.past && |Drive(s, inputs, n).s.past| == |s.past| + n
    decreases n
  {
    if n > 0 {
      FetchMoreOk(s, inputs);
      var m := FetchMore(s, inputs);
      if m.Ready? {
        SkipOk(m.s);
        DriveOk(Skip(m.s), m.rest, n - 1);
      }
    }
  }

  /** The end of the stream closes every block collection, unless a flow collection is still open. */
  lemma EndCloses(s: State)
    requires Inv(s) && s.flow == 0 && FetchStreamEnd(s).Ok?
    ensures Level(FetchStreamEnd(s).s.past + FetchStreamEnd(s).s.queue) == 0
  {
    FetchStreamEndOk(s);
    var s' := FetchStreamEnd(s).s;
    assert Holds(s');
    var m := if s.mark.column != 0 then Mark(s.mark.index, s.mark.line + 1, 0) else s.mark;
    UnrollsTo(s.(mark := m), -1);
    LevelConcat(s'.past, s'.queue);
  }

  lemma {:induction false} UnrollsTo(s: State, column: int)
    requires s.flow == 0 && UnrollIndent(s, column).Ok?
    ensures UnrollIndent(s, column).s.indent <= column
    decreases |s.indents|
  {
    if s.indent > column {
      var n := |s.indents| - 1;
      UnrollsTo(Append(s, Bare(BlockEndToken, s.mark, s.mark)).(indent := s.indents[n], indents := s.indents[..n]), column);
    }
  }
}
