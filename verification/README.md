# Pingmesh: agent protocol, router and configuration parser, verified

This project models the parts of the monitoring system in which the difficulty lies, and proves what they are
relied on for.  All statements are about every input, every run or every interleaving.

- **Agent and server.**  Messages travel as frames of length, type and payload.  `WireFrames` defines frames,
  `WireClient` the reading loop over Go slices with its 32-bit arithmetic, `WireSession` the loop of one
  connection, `WireSenders` any number of concurrent senders and the two ends together, `WireCuts` what becomes
  of the stream when writes fail.  `ServerRegistry` is the map of connected agents under concurrent connects and
  removals, `AgentSession` the agent's reconnect loop.
- **YAML.**  `YamlEvents` says twice what a well-nested event stream is and that both agree.  `YamlMachine` is
  the parser's state machine with its invariant, `YamlParser` the parser object, `YamlComposer` the builder of
  node trees, `YamlPipeline` the two together.  `YamlKeys` is the scanner's token queue with simple keys and
  indentation levels, `YamlTokenQueue` and `YamlFetcher` the objects.  `QuotedScalar`, `YamlEmitter`,
  `YamlScanner` and `QuotedRoundTrip` are the double-quoted scalars, over `YamlChars`.
- **Router.**  `CleanPath` is the path cleaner, `RadixTree` the tree of routes with parameters and catch-alls,
  `RadixShape` its shape, `RadixRoutes` what it finds, `RadixClash` what it refuses, `RadixOrder`, `RadixParams`,
  `RadixNames` and `RadixLimit` its priorities, parameter bounds, full paths and limits, `Router` the lookup loop
  and a request from method and raw path to handlers.
- **Driver.**  `DriverBuffer` is the MySQL driver's double buffer.

Where the original works by updating an object or an array, the model is a class or a method with a loop.
The larger ones are proved in two steps: functions on values that spell out each step, with a separate outcome
where the original would index out of range, are proved correct; the methods are proved to compute them.
Some definitions are stated under a bound variable (`forall u | u == x :: P(u)`), which means the same as `P(x)`
and keeps the solver from unfolding them everywhere.

Five places where code and expectation differ are stated exactly.  The reader's comparison of lengths is done in
32 bits and is right for every cutting of the stream if and only if the payload is at most 2^32-264 bytes
(`WireClient.GuardRight`); a length of 2^32-8 or more makes it panic.  The writer's test for a byte order mark
looks at the start of the value whatever position it is asked about (`YamlChars.IsBom`); the round trip holds
nevertheless.  A message sent after a failed write can follow a cut frame: the stream is still one of whole frames
if and only if every write put down all or nothing (`WireCuts.FramesIff`, `WireCuts.FrameAfterCut`).  Wildcards of a
route are counted in a byte: a route with 256 of them can overwrite another one, and with at most 255 in each
none is ever lost (`Router.LimitExact`, `RadixLimit.RouteLost`); the parameter bounds hold all the same.
A route that goes on behind a registered catch-all is accepted and never found (`RadixLimit.NeverFound`).

Check everything with `dafny verify dfyconfig.toml`.

## Model

| member | source | states |
|---|---|---|
| YamlEvents.AcceptsExactlyTrees | vender/src/gopkg.in/yaml.v2/parserc.go:13-44 | the event-by-event nesting checker accepts a sequence exactly when it is the flattening of some stream of document trees |
| YamlEvents.PrefixOfStream | vender/src/gopkg.in/yaml.v2/parserc.go:62-73 | whatever the checker has not rejected can be completed to a whole well-nested stream |
| YamlEvents.FlattenInjective | vender/src/gopkg.in/yaml.v2/decode.go:141-221 | two trees that flatten to the same events are equal, so the events determine the tree |
| YamlMachine.ParserRuns | vender/src/gopkg.in/yaml.v2/parserc.go:93-992 | for every token sequence and every run: no stack underflow and no unchecked peek at a missing token, the events are a prefix of a well-nested stream, a whole stream exactly in the end state, and at most three events a token |
| YamlMachine.RunIsOk | vender/src/gopkg.in/yaml.v2/parserc.go:93-992 | along every run the open brackets are those given by the state stack and the current state, and the remaining budget of events falls with each event |
| YamlMachine.StepIsOk | vender/src/gopkg.in/yaml.v2/parserc.go:93-170 | every state, whatever the next token: no panic, the event is one the checker allows, the invariant is kept, a token or rank is paid |
| YamlMachine.StreamStartOk | vender/src/gopkg.in/yaml.v2/parserc.go:174-190 | STREAM-START opens the stream; no panic, invariant kept, progress made |
| YamlMachine.DocumentStartOk | vender/src/gopkg.in/yaml.v2/parserc.go:198-278 | a document, explicit or implicit, opens directly inside the stream, or the stream ends; no panic, invariant kept, progress made |
| YamlMachine.DocumentNodeOk | vender/src/gopkg.in/yaml.v2/parserc.go:282-301 | a document receives exactly one node, empty if need be; no panic, invariant kept, progress made |
| YamlMachine.DocumentEndOk | vender/src/gopkg.in/yaml.v2/parserc.go:305-331 | a document closes after its node; no panic, invariant kept, progress made |
| YamlMachine.NodeIsOk | vender/src/gopkg.in/yaml.v2/parserc.go:359-572 | a node of any kind is delivered once to the innermost bracket, and opens its own bracket; no panic, invariant kept, progress made |
| YamlMachine.BlockSequenceEntryOk | vender/src/gopkg.in/yaml.v2/parserc.go:579-628 | entries of a block sequence, and its END popping the state that was pushed for it; no panic, invariant kept, progress made |
| YamlMachine.IndentlessSequenceEntryOk | vender/src/gopkg.in/yaml.v2/parserc.go:631-661 | a sequence without its own indentation ends by popping without a mark; no panic, invariant kept, progress made |
| YamlMachine.BlockMappingKeyOk | vender/src/gopkg.in/yaml.v2/parserc.go:675-731 | keys of a block mapping, each followed by a value state; no panic, invariant kept, progress made |
| YamlMachine.BlockMappingValueOk | vender/src/gopkg.in/yaml.v2/parserc.go:733-761 | each key gets exactly one value, empty if need be; no panic, invariant kept, progress made |
| YamlMachine.FlowSequenceEntryOk | vender/src/gopkg.in/yaml.v2/parserc.go:770-829 | entries of a flow sequence; a KEY token opens a one-pair mapping; no panic, invariant kept, progress made |
| YamlMachine.FlowSequenceEntryMappingKeyOk | vender/src/gopkg.in/yaml.v2/parserc.go:833-851 | the key of the one-pair mapping, also where a token is skipped for an empty key; no panic, invariant kept, progress made |
| YamlMachine.FlowSequenceEntryMappingValueOk | vender/src/gopkg.in/yaml.v2/parserc.go:854-875 | its value; no panic, invariant kept, progress made |
| YamlMachine.FlowSequenceEntryMappingEndOk | vender/src/gopkg.in/yaml.v2/parserc.go:878-891 | its END, without a token; no panic, invariant kept, progress made |
| YamlMachine.FlowMappingKeyOk | vender/src/gopkg.in/yaml.v2/parserc.go:904-967 | keys of a flow mapping; no panic, invariant kept, progress made |
| YamlMachine.FlowMappingValueOk | vender/src/gopkg.in/yaml.v2/parserc.go:970-992 | their values; no panic, invariant kept, progress made |
| YamlParser.Parser.Parse | vender/src/gopkg.in/yaml.v2/parserc.go:62-73 | the invariant is kept over every call; a call changes the object as the state machine says, and nothing at all after the end or after an error |
| YamlParser.Parser.StateMachine | vender/src/gopkg.in/yaml.v2/parserc.go:93-170 | calls the one function of the present state; event, error and fields are those of the step proved correct in YamlMachine |
| YamlParser.Parser.ParseStreamStart | vender/src/gopkg.in/yaml.v2/parserc.go:174-190 | takes STREAM-START, with its encoding, or reports that it is missing; the implicit document comes next |
| YamlParser.Parser.ParseDocumentStart | vender/src/gopkg.in/yaml.v2/parserc.go:198-278 | skips document ends unless implicit; opens an implicit or explicit document with its directives, pushes the state for its end, or ends the stream |
| YamlParser.Parser.ParseDocumentContent | vender/src/gopkg.in/yaml.v2/parserc.go:282-301 | an empty scalar where a directive, a document mark or the stream's end follows, otherwise the node |
| YamlParser.Parser.ParseDocumentEnd | vender/src/gopkg.in/yaml.v2/parserc.go:305-331 | the document ends, explicitly if its mark is there; tag directives are forgotten |
| YamlParser.Parser.ParseNode | vender/src/gopkg.in/yaml.v2/parserc.go:359-572 | alias, or properties and content: scalar, collection start with its state, empty scalar for properties alone, or the right error |
| YamlParser.Parser.ParseBlockSequenceEntry | vender/src/gopkg.in/yaml.v2/parserc.go:579-628 | an entry, empty or not, with the return state pushed; or the END, with state and mark popped; or the error with the collection's mark |
| YamlParser.Parser.ParseIndentlessSequenceEntry | vender/src/gopkg.in/yaml.v2/parserc.go:631-661 | an entry, or the END without a token and without a mark to pop |
| YamlParser.Parser.ParseBlockMappingKey | vender/src/gopkg.in/yaml.v2/parserc.go:675-731 | a key, empty or not, with the value state to follow; or the END; or the error with the collection's mark |
| YamlParser.Parser.ParseBlockMappingValue | vender/src/gopkg.in/yaml.v2/parserc.go:733-761 | the value after VALUE, empty where nothing fits or no VALUE is there |
| YamlParser.Parser.ParseFlowSequenceEntry | vender/src/gopkg.in/yaml.v2/parserc.go:770-829 | a comma between entries is demanded; KEY opens a one-pair mapping; otherwise an entry or the END |
| YamlParser.Parser.ParseFlowSequenceEntryMappingKey | vender/src/gopkg.in/yaml.v2/parserc.go:833-851 | the pair's key; an empty one skips the token as the source does |
| YamlParser.Parser.ParseFlowSequenceEntryMappingValue | vender/src/gopkg.in/yaml.v2/parserc.go:854-875 | the pair's value, empty where a comma or bracket follows |
| YamlParser.Parser.ParseFlowSequenceEntryMappingEnd | vender/src/gopkg.in/yaml.v2/parserc.go:878-891 | the pair's END, at the next token and without taking it |
| YamlParser.Parser.ParseFlowMappingKey | vender/src/gopkg.in/yaml.v2/parserc.go:904-967 | a comma between entries is demanded; then the entry, or the END with state and mark popped |
| YamlParser.Parser.ParseFlowMappingEntry | vender/src/gopkg.in/yaml.v2/parserc.go:921-963 | the key after KEY, empty where nothing fits; a lone key with an empty value to follow; or the END |
| YamlParser.Parser.ParseFlowMappingValue | vender/src/gopkg.in/yaml.v2/parserc.go:970-992 | the value after VALUE, empty where nothing fits or the entry has none |
| YamlParser.Parser.ProcessDirectives | vender/src/gopkg.in/yaml.v2/parserc.go:1013-1072 | version at most once and 1.1, tag handles at most once, the two default handles added; the same errors |
| YamlParser.Parser.AppendTagDirective | vender/src/gopkg.in/yaml.v2/parserc.go:1075-1095 | a handle already there is an error, or kept as it is where duplicates are allowed |
| YamlComposer.Composer.ParseNext | vender/src/gopkg.in/yaml.v2/decode.go:141-178 | on any event stream a parser can deliver: a failure means that, before the document is complete, the events ran out or an alias came whose name no anchor of this document declares; otherwise the document's flattening is exactly the events consumed, or the stream's end is next |
| YamlComposer.Composer.Parse | vender/src/gopkg.in/yaml.v2/decode.go:141-160 | the node due is composed from exactly the events taken and delivered to its bracket with the last of them; a failure has one of the two causes, inside the node |
| YamlComposer.Composer.ParseSequence | vender/src/gopkg.in/yaml.v2/decode.go:201-210 | children are the nodes between START and END; fails only for the two causes, before the END |
| YamlComposer.Composer.ParseMapping | vender/src/gopkg.in/yaml.v2/decode.go:212-221 | children are the nodes between START and END, an even number of them; fails only for the two causes, before the END |
| YamlComposer.Composer.ParseAlias | vender/src/gopkg.in/yaml.v2/decode.go:180-189 | succeeds exactly when an anchor of that name was declared before in this document |
| YamlComposer.Composer.ParseScalar | vender/src/gopkg.in/yaml.v2/decode.go:191-199 | one event, one leaf; its anchor is recorded |
| YamlComposer.Composer.ParseKind | vender/src/gopkg.in/yaml.v2/decode.go:141-160 | the switch; its last case, a panic in the original, is reached only with an event that starts no node, which Parse shows never to be next |
| YamlComposer.Composer.ParseAll | vender/src/gopkg.in/yaml.v2/decode.go:141-178 | document after document until the stream ends: the nodes are all documents of the stream, in order, or the failure has one of the two causes |
| YamlComposer.Composer.Expect | vender/src/gopkg.in/yaml.v2/decode.go:82-99 | takes one event, or says why not |
| YamlComposer.Composer.Peek | vender/src/gopkg.in/yaml.v2/decode.go:101-109 | looks without taking |
| YamlComposer.ComposesMapping | vender/src/gopkg.in/yaml.v2/decode.go:212-221 | START, the composed children and END make the mapping node |
| YamlComposer.ComposesSequence | vender/src/gopkg.in/yaml.v2/decode.go:201-210 | START, the composed children and END make the sequence node |
| YamlPipeline.LoadFirst | vender/src/gopkg.in/yaml.v2/decode.go:141-178 | for every token sequence: the first document of the parser's complete run, or none if that run is a stream without documents; ParserFailed only if the run ends in a parser error with no document complete, UnknownAnchor only for an alias that comes before the first document is complete and that no earlier anchor declares |
| YamlPipeline.FirstSucceeds | vender/src/gopkg.in/yaml.v2/decode.go:141-189 | loading the first document succeeds if and only if the run has it complete with every alias in it known, or is a stream without documents, whatever comes later |
| YamlPipeline.LoadAll | vender/src/gopkg.in/yaml.v2/decode.go:141-178 | the same for all documents of the run |
| YamlPipeline.LoadSucceeds | vender/src/gopkg.in/yaml.v2/decode.go:141-189 | loading succeeds if and only if the run reaches the parser's end state and every alias is known; the nodes are then the documents of the one stream that the events are |
| YamlPipeline.OneCompleteRun | vender/src/gopkg.in/yaml.v2/parserc.go:62-73 | a token sequence has only one complete run, so the events above are determined |
| YamlPipeline.CollectEvents | vender/src/gopkg.in/yaml.v2/parserc.go:62-73 | calling the parser until it stops ends, and gives a complete run |
| YamlKeys.DriveOk | vender/src/gopkg.in/yaml.v2/scannerc.go:626-662 | for every text and any number of tokens taken: no index out of range, the invariant holds, and tokens already taken are never changed |
| YamlKeys.FetchNextOk | vender/src/gopkg.in/yaml.v2/scannerc.go:665-838 | every fetch keeps the invariant (one key a flow level; each possible key is a token still in the queue; deeper keys later; indentation levels increasing from -1; open block collections counted by the levels) and every pending key still stands for the same token, or is new and stands for the last one |
| YamlKeys.KeyFoundExact | vender/src/gopkg.in/yaml.v2/scannerc.go:1268-1293 | KEY, and BLOCK-MAPPING-START where a level opens, go in directly before the token the key stands for, inside the queue, and nothing else changes |
| YamlKeys.KeyFoundKeeps | vender/src/gopkg.in/yaml.v2/scannerc.go:1268-1293 | no token that another pending key stands for is moved; the invariant is kept |
| YamlKeys.FetchValueOk | vender/src/gopkg.in/yaml.v2/scannerc.go:1268-1330 | the value fetcher, in all its cases |
| YamlKeys.FetchMoreOk | vender/src/gopkg.in/yaml.v2/scannerc.go:626-662 | when fetching stops with success, no possible key stands for the head of the queue |
| YamlKeys.SkipOk | vender/src/gopkg.in/yaml.v2/parserc.go:54-59 | taking the head keeps the invariant and all pending keys |
| YamlKeys.UnrollKeeps | vender/src/gopkg.in/yaml.v2/scannerc.go:960-981 | closing levels never pops an empty stack and emits one BLOCK-END for each |
| YamlKeys.RollKeeps | vender/src/gopkg.in/yaml.v2/scannerc.go:931-955 | opening a level emits one START at the end and keeps the levels increasing |
| YamlKeys.StaleKeeps | vender/src/gopkg.in/yaml.v2/scannerc.go:842-863 | stale keys are only given up |
| YamlKeys.RemoveKeeps | vender/src/gopkg.in/yaml.v2/scannerc.go:894-907 | removing a key changes no other |
| YamlKeys.SaveKeeps | vender/src/gopkg.in/yaml.v2/scannerc.go:867-891 | a saved key is numbered as the next token to come; other keys stay |
| YamlKeys.EndCloses | vender/src/gopkg.in/yaml.v2/scannerc.go:1010-1038 | after STREAM-END outside flow collections, block STARTs and ENDs of the whole stream balance |
| YamlKeys.FetchLineOk | vender/src/gopkg.in/yaml.v2/scannerc.go:1041-1096 | keeps the invariant and the meaning of every pending key |
| YamlKeys.FetchStreamEndOk | vender/src/gopkg.in/yaml.v2/scannerc.go:1010-1038 | keeps the invariant and the meaning of every pending key |
| YamlKeys.FetchFlowOpenOk | vender/src/gopkg.in/yaml.v2/scannerc.go:1099-1127 | keeps the invariant and the meaning of every pending key |
| YamlKeys.FetchFlowCloseOk | vender/src/gopkg.in/yaml.v2/scannerc.go:1130-1159 | keeps the invariant and the meaning of every pending key |
| YamlKeys.FetchFlowEntryOk | vender/src/gopkg.in/yaml.v2/scannerc.go:1162-1184 | keeps the invariant and the meaning of every pending key |
| YamlKeys.FetchBlockEntryOk | vender/src/gopkg.in/yaml.v2/scannerc.go:1187-1226 | keeps the invariant and the meaning of every pending key |
| YamlKeys.FetchKeyOk | vender/src/gopkg.in/yaml.v2/scannerc.go:1229-1265 | keeps the invariant and the meaning of every pending key |
| YamlKeys.FetchNodeOk | vender/src/gopkg.in/yaml.v2/scannerc.go:1333-1368 | keeps the invariant and the meaning of every pending key |
| YamlKeys.FetchBlockScalarOk | vender/src/gopkg.in/yaml.v2/scannerc.go:1371-1387 | keeps the invariant and the meaning of every pending key |
| YamlTokenQueue.TokenQueue.Insert | vender/src/gopkg.in/yaml.v2/apic.go:7-24 | whatever the capacity, compaction and growth: the queue afterwards is plain sequence insertion at the position, or at the end for a negative one |
| YamlTokenQueue.TokenQueue.Skip | vender/src/gopkg.in/yaml.v2/parserc.go:54-59 | the head leaves the queue and is counted |
| YamlFetcher.Fetcher.StaleSimpleKeys | vender/src/gopkg.in/yaml.v2/scannerc.go:842-863 | keys of an earlier line or more than 1024 bytes back are given up in place; a required one is the error |
| YamlFetcher.Fetcher.RemoveSimpleKey | vender/src/gopkg.in/yaml.v2/scannerc.go:894-907 | the key of the present level is given up in place; a required one is the error |
| YamlFetcher.Fetcher.SaveSimpleKey | vender/src/gopkg.in/yaml.v2/scannerc.go:867-891 | where allowed, the key of the present level becomes the next token, required at the indentation of a block |
| YamlFetcher.Fetcher.IncreaseFlowLevel | vender/src/gopkg.in/yaml.v2/scannerc.go:910-917 | one level more, with a key slot of its own |
| YamlFetcher.Fetcher.DecreaseFlowLevel | vender/src/gopkg.in/yaml.v2/scannerc.go:920-926 | one level less, with its key slot, unless there is none |
| YamlFetcher.Fetcher.RollIndent | vender/src/gopkg.in/yaml.v2/scannerc.go:931-955 | a deeper column in block context is pushed, and its START goes to the end or to the given place |
| YamlFetcher.Fetcher.UnrollIndent | vender/src/gopkg.in/yaml.v2/scannerc.go:960-981 | in block context every level right of the column is popped, with a BLOCK-END each |
| YamlFetcher.Fetcher.FetchStreamStart | vender/src/gopkg.in/yaml.v2/scannerc.go:984-1007 | indentation -1, one key slot, STREAM-START with the encoding |
| YamlFetcher.Fetcher.FetchStreamEnd | vender/src/gopkg.in/yaml.v2/scannerc.go:1010-1038 | all levels closed, keys given up, STREAM-END |
| YamlFetcher.Fetcher.FetchLine | vender/src/gopkg.in/yaml.v2/scannerc.go:1041-1096 | a directive or document mark: all levels closed, keys given up, its token |
| YamlFetcher.Fetcher.FetchFlowCollectionStart | vender/src/gopkg.in/yaml.v2/scannerc.go:1099-1127 | may begin a key itself; a level more; keys are allowed after it |
| YamlFetcher.Fetcher.FetchFlowCollectionEnd | vender/src/gopkg.in/yaml.v2/scannerc.go:1130-1159 | the key is given up, a level less, no key after it |
| YamlFetcher.Fetcher.FetchFlowEntry | vender/src/gopkg.in/yaml.v2/scannerc.go:1162-1184 | the key is given up; one may follow |
| YamlFetcher.Fetcher.FetchBlockEntry | vender/src/gopkg.in/yaml.v2/scannerc.go:1187-1226 | in block context only where a key may be, opening a sequence if deeper |
| YamlFetcher.Fetcher.FetchKey | vender/src/gopkg.in/yaml.v2/scannerc.go:1229-1265 | in block context only where a key may be, opening a mapping if deeper |
| YamlFetcher.Fetcher.FetchValue | vender/src/gopkg.in/yaml.v2/scannerc.go:1268-1330 | a pending key gets KEY, and a mapping START if deeper, before its token; otherwise as for a key; then VALUE |
| YamlFetcher.Fetcher.FetchNode | vender/src/gopkg.in/yaml.v2/scannerc.go:1390-1425 | anchor, alias, tag, quoted or plain scalar: the key is saved, then the token |
| YamlFetcher.Fetcher.FetchBlockScalar | vender/src/gopkg.in/yaml.v2/scannerc.go:1371-1387 | the key is given up, one may follow, the token |
| YamlFetcher.Fetcher.FetchNextToken | vender/src/gopkg.in/yaml.v2/scannerc.go:665-838 | what stands at the next token goes to its fetcher, after stale keys and closed levels; the invariant is kept |
| YamlFetcher.Fetcher.FetchMoreTokens | vender/src/gopkg.in/yaml.v2/scannerc.go:626-662 | fetches until the queue has a token that no possible key stands for; the invariant is kept |
| YamlFetcher.Fetcher.PeekToken | vender/src/gopkg.in/yaml.v2/parserc.go:46-51 | a token is shown only when no key can still be found before it |
| YamlFetcher.Fetcher.SkipToken | vender/src/gopkg.in/yaml.v2/parserc.go:54-59 | after a peek, the head goes to the parser; the invariant is kept |
| QuotedRoundTrip.WriteThenScan | vender/src/gopkg.in/yaml.v2/emitterc.go:1429-1548 | for every string of Unicode characters and every setting of the emitter, scanning what the double-quoted writer put out gives back exactly that string |
| QuotedScalar.ScanUndoesRender | vender/src/gopkg.in/yaml.v2/scannerc.go:2299-2552 | scanning any arrangement of raw characters, escapes, folds and guarded spaces, in any layout with positive indentation, gives back the characters meant and stops at the right quote |
| QuotedScalar.EscapeReads | vender/src/gopkg.in/yaml.v2/scannerc.go:2359-2462 | every escape sequence the writer uses is read back as its character |
| QuotedScalar.FoldJoins | vender/src/gopkg.in/yaml.v2/scannerc.go:2487-2533 | line break and indentation of a fold are read as one space |
| QuotedScalar.HexRoundTrip | vender/src/gopkg.in/yaml.v2/scannerc.go:2423-2434 | fixed-width hexadecimal digits are read back as their value |
| YamlEmitter.Emitter.WriteDoubleQuotedScalar | vender/src/gopkg.in/yaml.v2/emitterc.go:1429-1548 | the output is a quote, a permitted arrangement of pieces that mean the value, and a quote |
| YamlEmitter.Emitter.WriteChar | vender/src/gopkg.in/yaml.v2/emitterc.go:1435-1541 | one turn of the loop adds one piece meaning the character at hand, folding only where a space may be folded |
| YamlEmitter.Emitter.EmitDoubleQuoted | vender/src/gopkg.in/yaml.v2/emitterc.go:197-211 | inside its own indentation level the indentation is positive, so no continuation starts in column 0; the level is restored |
| YamlEmitter.Emitter.IncreaseIndent | vender/src/gopkg.in/yaml.v2/emitterc.go:197-211 | the old indentation goes on the stack; the new one is more by the step, or the same where indentless, or the first level |
| YamlEmitter.Emitter.WriteIndent | vender/src/gopkg.in/yaml.v2/emitterc.go:1201-1219 | a line break where needed, and spaces up to the indentation |
| YamlEmitter.Emitter.WriteEscape | vender/src/gopkg.in/yaml.v2/emitterc.go:1459-1518 | the escape sequence of a character |
| YamlEmitter.Emitter.Decode | vender/src/gopkg.in/yaml.v2/emitterc.go:1442-1457 | width and code point of the character at a position |
| YamlScanner.Scanner.ScanFlowScalar | vender/src/gopkg.in/yaml.v2/scannerc.go:2299-2552 | the loop that moves through the buffer computes the scan function: text and position, or the same error |
| YamlScanner.Scanner.ScanEscape | vender/src/gopkg.in/yaml.v2/scannerc.go:2359-2462 | one escape sequence, or the same error |
| YamlScanner.Scanner.ConsumeBlanks | vender/src/gopkg.in/yaml.v2/scannerc.go:2487-2513 | blanks and breaks are gathered as the scan function says |
| YamlChars.PrintableOfChar | vender/src/gopkg.in/yaml.v2/yamlprivateh.go:63-74 | on well-formed UTF-8 the byte test decides a property of the code point |
| YamlChars.BreakOfChar | vender/src/gopkg.in/yaml.v2/yamlprivateh.go:102-108 | the same for line breaks |
| YamlChars.WidthOfChar | vender/src/gopkg.in/yaml.v2/yamlprivateh.go:156-173 | the width is the length of the encoding; ASCII and blanks are recognised by the first byte |
| CleanPath.CleanPath | vender/src/github.com/gin-gonic/gin/path.go:21-110 | for every byte string the result is the one of the component specification: split at slashes, drop empty and dot, pop on dot-dot, keep a final slash when the path ends in an empty or dot component and something remains |
| CleanPath.BufApp | vender/src/github.com/gin-gonic/gin/path.go:113-123 | path prefix or lazy buffer, the bytes written so far are extended by one |
| CleanPath.BackUp | vender/src/github.com/gin-gonic/gin/path.go:64-81 | going back to the previous slash removes exactly the last component |
| CleanPath.CopyElement | vender/src/github.com/gin-gonic/gin/path.go:83-97 | a component is appended with its slash, inside the buffer |
| CleanPath.Elements | vender/src/github.com/gin-gonic/gin/path.go:50-99 | the loop never overtakes the buffer and resolves every component |
| CleanPath.CleanIsCanonical | vender/src/github.com/gin-gonic/gin/path.go:8-20 | cleaning is idempotent; a path is left alone exactly when it is canonical |
| CleanPath.CleanDecides | vender/src/github.com/gin-gonic/gin/path.go:8-20 | two paths are cleaned alike exactly when their components and, if there are any, their endings agree |
| RadixTree.AddRouteOk | vender/src/github.com/gin-gonic/gin/tree.go:126-382 | adding a route, with parameters anywhere and perhaps a catch-all, keeps the tree well formed; exactly the paths the pattern matches are found anew, with its handlers and parameter values, and none of them was found before |
| RadixShape.AddRouteShaped | vender/src/github.com/gin-gonic/gin/tree.go:126-382 | for every path: one wildcard child at most, and alone; a catch-all only below its empty node; an index byte for each ordinary child; bytes enough in every wildcard's path |
| RadixShape.CatchAllSane | vender/src/github.com/gin-gonic/gin/tree.go:331-372 | the pair of catch-all nodes |
| RadixShape.WalkSane | vender/src/github.com/gin-gonic/gin/tree.go:136-255 | the walk keeps that shape from any node on, catch-alls included |
| RadixTree.SplitKeeps | vender/src/github.com/gin-gonic/gin/tree.go:151-177 | splitting an edge changes no lookup |
| RadixTree.InsertOk | vender/src/github.com/gin-gonic/gin/tree.go:263-382 | a path inserted where nothing was, catch-all included, is found for exactly the paths it matches |
| RadixTree.WildOk | vender/src/github.com/gin-gonic/gin/tree.go:298-330 | the same for a path that starts with a wildcard |
| RadixTree.CatchOk | vender/src/github.com/gin-gonic/gin/tree.go:331-372 | a catch-all below a static part is found for exactly the paths with a slash there, and takes the rest |
| RadixTree.CatchRefuses | vender/src/github.com/gin-gonic/gin/tree.go:183-211 | no further route gets past a catch-all |
| RadixTree.WalkOk | vender/src/github.com/gin-gonic/gin/tree.go:136-255 | the walk from any node on |
| RadixTree.ReorderKeeps | vender/src/github.com/gin-gonic/gin/tree.go:101-122 | moving a child up, with its index byte, changes no lookup |
| RadixTree.ReplaceChild | vender/src/github.com/gin-gonic/gin/tree.go:224-232 | a route added below one child concerns only the paths of that child |
| RadixTree.AppendChild | vender/src/github.com/gin-gonic/gin/tree.go:234-247 | a new child takes exactly its own paths |
| RadixRoutes.TreeIsRoutes | vender/src/github.com/gin-gonic/gin/tree.go:126-532 | after any sequence of accepted routes, with parameters and catch-alls, a path is found exactly when a registered pattern matches it; that pattern is unique and its handlers and values are returned |
| RadixRoutes.MatchIsSegments | vender/src/github.com/gin-gonic/gin/tree.go:423-492 | where wildcards are whole segments, matching from the left is matching segment by segment, a catch-all taking all that are left, one at least |
| RadixClash.RefusedExactly | vender/src/github.com/gin-gonic/gin/tree.go:183-372 | after any sequence of accepted routes, a further one is refused if and only if a wildcard or catch-all of it has no name or another one in its name, or the catch-all is not behind a slash, or the route clashes with a registered one: the same pattern, a wildcard meeting anything but the same wildcard, or a catch-all's slash meeting a slash |
| RadixClash.NoClash | vender/src/github.com/gin-gonic/gin/tree.go:183-211 | no two patterns in one tree clash |
| RadixClash.HoldsIffRegistered | vender/src/github.com/gin-gonic/gin/tree.go:126-261 | the patterns stored in the tree are exactly the routes registered |
| RadixClash.WalkRefused | vender/src/github.com/gin-gonic/gin/tree.go:136-255 | a walk that panics has met a stored pattern that clashes, or a badly named wildcard |
| RadixClash.InsertRefused | vender/src/github.com/gin-gonic/gin/tree.go:263-372 | where nothing is in the way, only a badly named wildcard or catch-all is refused |
| RadixOrder.AddRouteRanked | vender/src/github.com/gin-gonic/gin/tree.go:101-382 | every priority is the number of routes at and below the node, children by non-increasing priority, and one route more is held; for any path with at most 255 wildcard bytes |
| RadixLimit.RouteLost | vender/src/github.com/gin-gonic/gin/tree.go:224-255 | two accepted routes, of 255 and 256 wildcards, of which the tree holds only one: with the count used up the second writes over the first one's node |
| RadixLimit.DownChain | vender/src/github.com/gin-gonic/gin/tree.go:136-255 | the same at the end of any chain of wildcards that has used up the count |
| RadixLimit.NeverFound | vender/src/github.com/gin-gonic/gin/tree.go:183-247 | a route that goes on behind the name of a registered catch-all is accepted, and no lookup ever changes |
| Router.LimitExact | vender/src/github.com/gin-gonic/gin/tree.go:101-382 | every tree of routes with at most k wildcard bytes each holds all its routes, with the right priorities, if and only if k is at most 255 |
| RadixOrder.SortedMoved | vender/src/github.com/gin-gonic/gin/tree.go:101-122 | one increment and one move keep the children sorted |
| RadixParams.AddRouteDeep | vender/src/github.com/gin-gonic/gin/tree.go:137-200 | for every accepted path, with parameters anywhere, catch-alls and any number of wildcards: every wildcard node's maxParams is exactly the largest number of wildcards on any way down from it, and the tree's is the largest parameter count of any route added |
| RadixParams.InsertDeep | vender/src/github.com/gin-gonic/gin/tree.go:263-382 | the same for what is inserted: a chain of wildcards with a catch-all at its end perhaps |
| RadixParams.CatchAllDeep | vender/src/github.com/gin-gonic/gin/tree.go:331-372 | the catch-all pair, whose maxParams is 1 |
| RadixNames.AddRouteNamed | vender/src/github.com/gin-gonic/gin/tree.go:151-177 | in a tree of static routes every node's fullPath is the path that leads to it |
| RadixNames.FullIsPath | vender/src/github.com/gin-gonic/gin/tree.go:498-504 | the fullPath reported is the path asked for |
| Router.GetValue | vender/src/github.com/gin-gonic/gin/tree.go:394-532 | for every tree that routes of any kind can build: the loop finds what the lookup function says; the parameter slice is never extended past its capacity, replacing it never loses a parameter, and no node has an invalid type |
| Router.SaveParam | vender/src/github.com/gin-gonic/gin/tree.go:430-443 | a larger slice is made where the capacity is below maxParams; the parameters are kept exactly when one more fits and nothing saved is dropped |
| Router.IncrementChildPrio | vender/src/github.com/gin-gonic/gin/tree.go:101-122 | swapping neighbours and rebuilding the index bytes moves child and byte together |
| Router.TreeKeeps | vender/src/github.com/gin-gonic/gin/tree.go:126-382 | after any sequence of accepted routes: shape and parameter bounds, at most 255 wildcards on any way down; with at most 255 wildcard bytes in each route also priorities and the count of routes |
| Router.StaticIsMap | vender/src/github.com/gin-gonic/gin/tree.go:394-532 | a tree of static routes is a map from paths to handlers |
| Router.SegmentsDecide | vender/src/github.com/gin-gonic/gin/tree.go:394-532 | where wildcards and catch-alls are whole segments: found exactly when the segments of some registered pattern match |
| Router.CleanedValues | vender/src/github.com/gin-gonic/gin/gin.go:376-386 | after cleaning, no wildcard takes an empty segment |
| Router.Engine.AddRoute | vender/src/github.com/gin-gonic/gin/gin.go:246-259 | one tree for each method; the routes of that method grow by the one added or stay, other methods' are untouched; accepted exactly when every wildcard is well named and no registered route clashes |
| Router.Engine.HandleRequest | vender/src/github.com/gin-gonic/gin/gin.go:368-393 | looks the cleaned path up in the tree of the method: the answer is the one route that matches it, or none if none does; where wildcards are whole segments, segment by segment and with non-empty values |
| WireFrames.DecodeEncode | src/service/server/client.go:170-211 | a frame is decoded to the message it was made from, whatever follows it |
| WireFrames.EncodeDecode | src/service/server/client.go:118-167 | re-encoding what was decoded gives back the bytes |
| WireFrames.DecodedIsPrefix | src/service/server/client.go:71-167 | messages decoded from a stream of whole frames and an unfinished one are a prefix of those sent |
| WireFrames.DecodedIsAll | src/service/server/client.go:71-167 | with everything received and no whole frame left over, they are all of them |
| WireClient.GuardRight | src/service/server/client.go:104 | the 32-bit comparison is right for every amount that can have been read if and only if the payload is at most 2^32-264 bytes |
| WireClient.Client.GetMsg | src/service/server/client.go:71-167 | buffer and bytes received become message and buffer, byte for byte; the cached length is that of the buffer; at most 255 bytes are held over; it reports a failed read only if one of the reads used failed; it panics only on a length of 2^32-8 or more; no byte of the old buffer, or before it in the same array, is changed |
| WireClient.Client.Turn | src/service/server/client.go:77-167 | one turn of the loop, same terms |
| WireClient.Client.Take | src/service/server/client.go:118-167 | the first frame leaves the buffer, its payload as a slice behind it |
| WireClient.Append | src/service/server/client.go:97-114 | append in place or into a fresh array: contents extended, earlier bytes untouched |
| WireSession.HandleConn | src/service/server/server.go:100-110 | for every cutting of the stream into reads, the messages handed out are the first ones sent, and all their payloads are intact at the end although they share arrays with the buffer; it ends with a failed read only if a read can fail |
| WireSession.Receive | src/service/agent/agent.go:351-443 | one call at a frame boundary returns the next message sent, or waits or fails with the frame incomplete |
| WireSession.HeadOfStream | src/service/server/client.go:85-104 | the start of a stream of frames determines its first frame |
| WireSenders.ReachableKeeps | src/service/server/client.go:202-209 | in every interleaving of senders, only the lock holder is inside, and while the connection is valid the wire is whole frames in lock order and a part of the last |
| WireSenders.StepKeeps | src/service/agent/agent.go:478-487 | every step of every sender keeps that |
| WireSenders.WireLacks | src/service/server/client.go:169-211 | what the wire lacks is at most the rest of the frame being written |
| WireSenders.Session | src/service/server/client.go:71-211 | senders and receiver together: the messages handed out are a prefix, in lock order, of those sent, and all finished ones once everything has arrived, unless a read fails or the receiver's flag goes down |
| WireCuts.ReachableRecorded | src/service/server/client.go:202-209 | in every run, also after failed writes: the wire is the written beginnings of the frames in lock order, and only after a failure can a frame that is not in hand be cut |
| WireCuts.FramesIff | src/service/server/client.go:170-211 | the wire is the concatenation of the frames written as a whole if and only if every write put down all of its frame or nothing |
| WireCuts.ReceivedUpTo | src/service/server/client.go:71-211 | if nothing was written after the first cut, what the receiver decodes is a prefix of the messages before it, and all of them in the end |
| WireCuts.ReceivedWhileValid | src/service/server/client.go:71-211 | while no write has failed, any decoding of the wire is a prefix of the messages in lock order, and misses at most the one in hand |
| WireCuts.FrameAfterCut | src/service/server/client.go:197-210 | a sender does not look at the flag: a run in which a frame follows a cut one, so that the receiver gets a message nobody sent and never the one that was sent whole |
| ServerRegistry.ReachableKeeps | src/service/server/server.go:83-111 | in every interleaving the registry is in bijection with the runs still to be removed |
| ServerRegistry.StepKeeps | src/service/server/server.go:83-145 | each step of a connection keeps that |
| ServerRegistry.RemovesOwn | src/service/server/server.go:137-145 | delete-by-id removes the caller's own client and never a newer one from the same address |
| ServerRegistry.NeverValidAgain | src/service/server/client.go:67-69 | a client's flag never comes up again |
| ServerRegistry.TcpServer.EnterClient | src/service/server/server.go:91-99 | a client is entered unless its id is taken; keys stay the clients' ids |
| ServerRegistry.TcpServer.InValidClient | src/service/server/server.go:137-145 | the client's flag goes down, and the entry under its id goes, and no other |
| ServerRegistry.TcpServer.Multicast | src/service/server/server.go:301-313 | for every order of the map, each client gets the message as often as its id is listed, nobody else gets it |
| ServerRegistry.TcpServer.ListAliveAgents | src/service/server/server.go:315-323 | each registered id once |
| ServerRegistry.AlwaysKeyed | src/service/server/server.go:91-99 | every entry's key is its client's id, in every reachable state |
| AgentSession.SessionsApart | src/service/agent/agent.go:45-101 | in every run: reset only with no worker running, workers see only their own connection's socket and lock, a new connection starts valid, and the read buffer is empty until and when the listener starts |
| AgentSession.ReachableKeeps | src/service/agent/agent.go:45-101 | the invariant behind it, in every reachable state |
| AgentSession.NeverValidAgain | src/service/agent/agent.go:104-252 | within a connection the flag never comes up again |
| AgentSession.WaitingEnds | src/service/agent/agent.go:45-101 | under every schedule, from any reachable state whose flag is down: fewer than a fixed number of steps of the session are taken before the next connection, and one more is always possible, so the group drains and the agent reconnects |
| AgentSession.Reconnects | src/service/agent/agent.go:45-101 | from such a state there is a run to the next dialling, valid again |
| DriverBuffer.Buffer.Fill | vender/src/github.com/go-sql-driver/mysql/buffer.go:54-112 | the unread bytes are kept and extended across growth, compaction and switching; given up only for a failed read, for the end of the stream with too few bytes, or on a read that never returns; the array in use is untouched when it is not the target |
| DriverBuffer.Buffer.ReadNext | vender/src/github.com/go-sql-driver/mysql/buffer.go:114-128 | the next bytes of the stream, in order, unless too few are there and the connection gives one of those causes |
| DriverBuffer.ReadPieces | vender/src/github.com/go-sql-driver/mysql/buffer.go:46-128 | successive reads, flips anywhere between them, return consecutive pieces of the stream; when one gives up, for a cause in the outcomes then left, the pieces so far are the start of the stream |
| DriverBuffer.ReadFlipRead | vender/src/github.com/go-sql-driver/mysql/buffer.go:46-128 | with one flip in between, the second read leaves the bytes of the first unchanged, also when it gives up, for which the cause is stated |

## Left out

- RadixTree.AddRouteOk: a route has at most 255 wildcards and no segment behind a catch-all; beyond that it is false, as RadixLimit.RouteLost and RadixLimit.NeverFound show. The tree is a value that is rebuilt on the way down, not nodes updated in place, so sharing of nodes is not captured; a conflict is an outcome instead of a panic that leaves a half-changed tree.
- RadixRoutes.TreeIsRoutes: the same routes.
- RadixClash.RefusedExactly: the same routes; a route with a segment behind a catch-all is refused unless that catch-all is registered.
- RadixClash.HoldsIffRegistered: the same routes.
- Router.SegmentsDecide: the same routes, with wildcards as whole segments.
- Router.Engine.AddRoute: exactly when a route is accepted is stated for the same routes; the tables of middleware and the debug output are not modelled.
- Router.GetValue: unescaping of values and the trailing-slash recommendation are not modelled.
- Router.Engine.HandleRequest: redirects, raw paths, the answer for other methods and middleware are not modelled.
- RadixNames.AddRouteNamed: fullPath is stated for static routes only; an existing node that becomes a leaf after a wildcard route keeps the other route's fullPath.
- RadixOrder.AddRouteRanked: priorities are unbounded, the original's are 32 bits; routes have at most 255 wildcard bytes, beyond which it fails as RadixLimit.RouteLost says.
- WireClient.Client.GetMsg: what becomes of the bytes is stated for a buffer that holds at most its first frame and part of one read, which is so at the start and after every message within the limit; deadlines and the heartbeat clock are an undetermined answer of JudgeValid; how much an array grows is undetermined; bytes of a read that also reports an error are not counted as received, as in the original.
- WireSenders.Session: marshalling of messages is outside; payloads are bytes. States after a failed write are the subject of WireCuts, which speaks of decoding and not of the reading loop.
- AgentSession.SessionsApart: flags are read and written atomically; the collecting and probing done by workers is not modelled.
- ServerRegistry.TcpServer.Multicast: what is sent is the list of clients in the order of sending, not the bytes.
- DriverBuffer.Buffer.Fill: takeBuffer, store and timeouts are not modelled; after an error only the unread bytes are spoken of.
- YamlComposer.Composer.ParseNext: works on the events the parser delivers, collected first, so the one-event lookahead is not interleaved with scanning; an alias keeps the anchor's name, not a pointer to the node.
- YamlParser.Parser.ParseFlowSequenceEntryMappingValue: the mark of an empty value is that of the VALUE token; in the original the variable points into the token buffer, which the peek in between may have shifted, so the mark can be another token's.
- YamlParser.Parser.Parse: reads a sequence of tokens; context strings and marks of errors are reduced to the problem text.
- YamlFetcher.Fetcher.FetchNextToken: what stands at the next token, and whether scanning it succeeds, is an input; the character tests of the dispatcher are not modelled; the encoding is the one given at construction.
- YamlScanner.Scanner.ScanFlowScalar: the double-quoted style only; the input is a complete byte sequence with NULs after it, so refilling the reader's buffer is not modelled.
- QuotedRoundTrip.WriteThenScan: the text is Unicode without surrogates; flushing, write errors and the adjustment of the preferred width are not modelled.
- Plain, single-quoted, literal and folded scalars, the reflection-based decoder and encoder, and the case-insensitive lookup of the router.
- Storage, metrics, packet capture, process execution, HTTP handlers, logging and configuration files.
