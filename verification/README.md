# Verified model of the language server's core

This project models the Rust port of the language server (`rs/src`) in Dafny and proves what it is for. A parse of a document yields rule events and lexer events. The server turns them into an outline, semantic tokens and diagnostics, keeps the client's documents in step, and answers from caches that must never be stale. Each part that changes state in the source is a method or a class here, proved against a specification that does not mention its loops, stacks or cursors; the two that several threads share, the gate and the collector slot, are relations between states, one step of one thread at a time. The lemmas then say what that specification is worth.

- **Text** (`Text`, `Encodings`, `Columns`): a text is a sequence of scalar values. Byte offsets and wire columns are prefix sums over it, which count the code units of UTF-8 and UTF-16 as their decoders read them. The two-cursor column measure is proved equal to walking back from each token.
- **Documents** (`Documents`, `Sites`): the line index, engine sites, positions in both encodings, incremental edits.
- **Outline** (`Sorting`, `Forest`, `Nesting`, `NestingInverse`, `Outline`, `OutlineFacts`, `OutlineInverse`, `CoreNesting`): event pairing, sort, bounded stack walk and reverse assembly, against "the parent is the last earlier symbol that contains it".
- **Lex trace** (`Trace`, `Anchor`): merged intervals against a scan of all claimed spans, and the moving of tokens back onto their text.
- **Semantic tokens** (`Semantic`, `SegmentFacts`, `SegmentText`, `GuardFacts`, `DeltaEncoding`, `TokenPipeline`): line splitting, the out-of-order guard, the wire encoding, and the three together from a lexer trace to the client.
- **Concurrency** (`Gate`, `Mux`, `MuxRuns`): the re-entrant gate and the collector slot as interleaved steps of any number of threads.
- **Instances** (`Json`, `Instances`): cache keys as compact JSON, quarantine and reload.
- **Server** (`Server`, `ServerRuns`, `ServerLaws`, `ServerSession`): the message loop under every sequence of messages, what each message does to each document, and a whole client session.
- **Input** (`Framing`, `Firewall`): the byte-level message reader and writer, and the grammar firewall.

What the model takes as given: the parsing engine, grammar loading and routing are functions that answer anything, turn by turn; clocks are numbers in the messages; the engine's `is_builtin_ref` is a predicate; hashes and dialects are functions of the host. A JSON number is the text it prints as, which keeps `1` and `1.0` apart, and its double is a function of that text. Integers are unbounded except where the code checks a bound (`u32` on the wire, `u64` in a header, the caps).

Four statements one might expect are false of the code, and are proved with their exact condition:

- A wire position does not always survive the round trip through the client: a place behind a `\r` that ends its line or the text does not. `Documents.RoundTrip` is an if-and-only-if, and `Documents.BreakIsNotAddressable` a place that is lost.
- An engine site is not always the wire position of its offset: the column restarts after a lone `\r`, the wire's does not. `Documents.SiteIsPosition` is an if-and-only-if, and `Documents.ReturnMovesSite` a text where the two part ways.
- The out-of-order guard can drop a piece that is not empty, when a lone `\r` restarts the column before it. `GuardFacts.GuardDropsExactly` is an if-and-only-if, and `GuardFacts.ReturnDropsPiece` is a text that loses a token.
- A second `textDocument/didOpen` of an open document can be answered from an analysis of an older text. `ServerSession.CoherenceIsExact` says, over every run, exactly when it is not; `ServerSession.NamedStaysCoherent` gives a client's side of it, no version given to two texts; and `ServerSession.ReopenServesStale` is a run that serves the older text.

Where the comments and the code differ, the model follows the code: a `\r` that ends the text is outside its line's span, and kept lexer tokens may overlap.

## Model

| member | source | states |
|---|---|---|
| Nesting.Nest | rs/src/outline.rs:208-249 | The sort, the stack walk under the depth bound and the reverse assembly build, for arbitrary and even crossing spans, the forest in which each symbol sits under the last earlier symbol in sorted order that contains it, without the levels at the bound or below |
| Nesting.Walk | rs/src/outline.rs:211-232 | The stack walk lists, for every symbol, exactly its kept children in order, keeps exactly the symbols shallower than the bound, and lists the parentless ones as roots |
| Nesting.PopTo | rs/src/outline.rs:215-221 | Popping while the top does not contain the next symbol leaves exactly that symbol's ancestors, cut to the bound |
| Nesting.Assemble | rs/src/outline.rs:233-248 | The reverse pass, taking subtrees out of their slots, yields the forest of the listed children: every child is finished before its parent |
| Nesting.Parent | rs/src/outline.rs:200-204 | The parent is the last earlier symbol containing this one, and there is none only if no earlier symbol contains it |
| Nesting.ParentOnSpine | rs/src/outline.rs:211-232 | Every symbol between a parent and its child sits under the parent, crossing spans included, so the nearest container is still on the stack |
| Nesting.StackStep | rs/src/outline.rs:211-232 | Of a symbol and its ancestors, exactly the ones shallower than the next symbol's depth contain that next symbol, and they are its ancestors |
| Nesting.PreorderIsSortedOrder | rs/src/outline.rs:200-249 | The forest places each kept symbol exactly once: its preorder with depths is the sorted list of kept symbols with their depths |
| Nesting.BoundIsTruncation | rs/src/outline.rs:222-224 | For every span list, leaving out symbols past the bound as the walk goes equals cutting the unbounded outline off below that level |
| Forest.FlattenInjective | rs/src/outline.rs:200-207 | A forest is determined by its preorder listing with depths, so the two lemmas above pin the outline down |
| CoreNesting.NestSymbols | ts/src/core.js:262-276 | The reference form, which pushes each symbol into its parent's own `children` in place and never cuts off, leaves objects that are exactly the unbounded declarative outline |
| CoreNesting.Place | ts/src/core.js:266-274 | One turn of that walk: clearing the symbol's children, popping to its parent and pushing it keeps every earlier symbol holding exactly its children so far |
| CoreNesting.BoundedIsCutOff | rs/src/outline.rs:222-224 | Whatever forest the reference form's objects show, the bounded outline of the same symbols is that forest cut off at the bound |
| Sorting.StableSortSorts | rs/src/outline.rs:209 | The stable sort orders |
| Sorting.StableSortIsStable | rs/src/outline.rs:200-202 | Symbols that tie keep the order they were closed in |
| NestingInverse.NestInvertsFlattening | rs/src/outline.rs:208-249 | The spans of a strictly nested forest, in any order, nest back into that forest cut off below the bound |
| Outline.Pair | rs/src/outline.rs:119-145 | The map of open rules pairs each close with the last open event of its rule index not closed since, a forced close ending at the open token and an unforced one without a token yielding nothing |
| Outline.Positions | rs/src/outline.rs:147-159 | Positions measured in one offset-ordered pass and scattered back to their slots are, slot by slot, each token's own wire position |
| Outline.BuildOutline | rs/src/outline.rs:117-182 | The outline of a trace is the declarative nesting of what its events close, down to 256 levels; `OutlineFacts` says what its symbols are |
| OutlineFacts.SymbolSays | rs/src/outline.rs:161-182 | A symbol has its rule's label, kind 18 for the label `Array` and 19 otherwise, an empty selection at its start, and a range that goes from the engine's place of the open token to the engine's place of the end token plus that token's wire length, or plus one if it is empty |
| OutlineFacts.RangeIsSource | rs/src/outline.rs:161-182 | When no carriage return precedes the two tokens in their lines and the end token is non-empty and on one line, such a range goes from the wire position of the open token to that of the end token's end, and the selection is empty at its start |
| OutlineFacts.EverySymbolSays | rs/src/outline.rs:117-182 | Every symbol of every outline, crossing spans included, is that of a rule the events close |
| OutlineInverse.OutlineInvertsFlattening | rs/src/outline.rs:117-249 | Whatever the interleaving in which the containers of a strictly nested forest open and close, forced closes without a token and idle rules in between, the outline of the events is that forest cut off below 256 levels, each symbol with its container's name, kind, start and end: a left inverse of flattening |
| OutlineInverse.StaysOpen | rs/src/outline.rs:126-133 | Between its open and its close a container is the one its rule index has open, whatever other events come between |
| Columns.WalkBackIsWindow | rs/src/semantic.rs:328-336 | Walking back measures the difference of two prefix sums, clamped at the start of the text |
| Columns.BoundaryAtOrBefore | rs/src/semantic.rs:318-326 | A byte offset clamps into the text and to the last character boundary at or before it |
| Columns.Columns.Measure | rs/src/semantic.rs:298-316 | Whatever order the queries come in, overshooting or inside a character, the answer is the walk back from the clamped boundary, and the cursors stay consistent |
| Columns.MeasureAll | rs/src/outline.rs:315-344 | A whole list of queries over one pair of cursors is answered as if each were measured alone |
| Columns.FallbackIffOutOfOrder | rs/src/semantic.rs:298-316 | A run walks back exactly when some offset or window start steps backwards |
| Columns.TravelBounded | rs/src/semantic.rs:262-281 | However the queries come, the two cursors together pass at most twice the text's characters |
| Trace.ReconcileByScan | ts/src/core.js:175-190 | The reference scan keeps exactly the events whose start no newer kept token claims, sorted by start |
| Trace.Claim | rs/src/trace.rs:259-275 | Adding an interval keeps the intervals non-empty, disjoint and apart, and their union grows by exactly that interval |
| Trace.Shadowed | rs/src/trace.rs:194-199 | One ordered lookup decides whether any claimed interval covers a byte |
| Trace.Reconcile | rs/src/trace.rs:188-208 | The merged-interval form returns exactly what the newest-first scan over all claimed spans returns |
| Trace.ReconciledFacts | rs/src/trace.rs:160-173 | The output starts strictly increase, its tokens are events, and every event starts inside a kept token's span |
| Trace.ReconciledIsSurvivors | rs/src/trace.rs:188-208 | A token is kept if and only if it is an event whose start lies in `si .. si + max(1, len)` of no later kept event |
| Trace.ReconcileIdempotent | rs/src/trace.rs:173-208 | Reconciling a reconciled list changes nothing, overlapping kept tokens included |
| Anchor.MovedSitsOnText | rs/src/trace.rs:227-253 | A moved token starts where its text does and ends where it was reported |
| Anchor.MovedSiteIsEngines | rs/src/trace.rs:227-253 | If the reported row and column were the engine's for the reported offset, the moved ones are the engine's for the new start, whether subtracted or measured again |
| Anchor.AnchorIdempotent | rs/src/trace.rs:227-253 | A moved token stays put the second time |
| Anchor.ReconcileIn | rs/src/trace.rs:182-208 | Every token is put where its text is and then reconciled, as the scan over the placed tokens would; `AnchoredExactly`, `PlacedExactly` and `ReconciledInFacts` say where that is |
| Anchor.AnchoredExactly | rs/src/trace.rs:227-245 | A token is moved if and only if its text is not empty, has the reported length, ends at the reported offset and does not also start there |
| Anchor.PlacedExactly | rs/src/trace.rs:227-253 | A moved token starts where its text does, its row less the line feeds in it and its column that of the new start; every other stays as reported |
| Anchor.ReconcileInIdempotent | rs/src/trace.rs:182-208 | Reconciling against the text twice changes nothing |
| Anchor.ReconciledInFacts | rs/src/trace.rs:182-208 | The output starts increase, and it holds exactly the events in their places that no later surviving one claims the start of |
| Semantic.Segments | rs/src/semantic.rs:368-420 | The emitted segments are every coloured token's pieces in order, each with the column walking back gives, that do not step backwards from the last one emitted; `SegmentText` says what a piece selects |
| Semantic.CutLine | rs/src/semantic.rs:382-408 | A line cut out of a token has its text's lengths in both units and the byte range it stands at, clamped into the text |
| Semantic.EmitLines | rs/src/semantic.rs:382-408 | A token spanning lines is emitted as one piece for each line, the carriage return that ends a line left out |
| SegmentFacts.PiecesCoverToken | rs/src/semantic.rs:382-408 | The pieces of a token that spans lines and sits on its text are ordered, disjoint and within the token, and each byte of it is covered exactly when its character is not a line feed or a `\r` ending a line |
| SegmentFacts.WholePieceCovers | rs/src/semantic.rs:409-419 | A token on one line that sits on its text has one piece, from its start over the length it reports, clamped to the text; that is its own text if and only if it reports its own length, or more at the end of the document |
| SegmentText.PiecesSelectText | rs/src/semantic.rs:368-420 | For a token with the engine's site that reports its own length, every piece selects, by its row, column and length in either unit, one stretch of the token's text on one line, in the token's kind; on one line it is the whole token, at least one unit long |
| SegmentText.PiecesLieInText | rs/src/semantic.rs:368-420 | Wherever a token says it is, its pieces' byte ranges lie in the text |
| SegmentText.BytesTakeTheirColour | rs/src/semantic.rs:368-420 | Over tokens standing one after the other, every byte of a token takes the token's own colour, but for the line feeds and the carriage returns before them in a token that spans lines |
| SegmentText.BytesOutsideTakeNone | rs/src/semantic.rs:368-420 | A byte of no token takes none |
| GuardFacts.GuardIsExact | rs/src/semantic.rs:351-365 | For any segments, every non-empty one is kept if and only if none of them stands before an earlier one |
| GuardFacts.GuardDropsExactly | rs/src/semantic.rs:351-365 | For tokens standing one after the other with the engine's sites, `\r` or not, a non-empty piece is dropped if and only if two non-empty pieces start in one line with the later one nearer the last break before it |
| GuardFacts.GuardDropsNothing | rs/src/semantic.rs:351-365 | In text without `\r` that never happens, and the guard drops only empty pieces |
| GuardFacts.GuardKeepsRecords | rs/src/semantic.rs:351-365 | For any segments, the guard keeps exactly the non-empty ones that stand before no earlier non-empty one |
| GuardFacts.ReturnDropsPiece | rs/src/semantic.rs:351-365 | In the text `x y\rz` the guard drops the token `z`, its row and column being the engine's |
| DeltaEncoding.Encode | rs/src/semantic.rs:452-482 | What a client decodes from the data is exactly the greedy in-order subsequence of tokens the wire can carry, each without modifiers |
| DeltaEncoding.TakenIsAll | rs/src/semantic.rs:445-482 | Nothing is dropped if and only if every token is non-empty, not before the one in front of it, and below 2^32 in its row, column step and length |
| DeltaEncoding.GuardsAgree | rs/src/semantic.rs:452-482 | For any segments that fit the wire, the encoder's guard takes what the emitter's lets through |
| DeltaEncoding.EverySegmentArrives | rs/src/semantic.rs:351-365 | For values that fit the wire, every segment the emitter let through reaches the client with its row, column, length and kind |
| TokenPipeline.SemanticTokensData | rs/src/semantic.rs:485-491 | From a lexer trace, for values that fit the wire, the client decodes exactly what the guard lets through of the pieces of the reconciled tokens |
| TokenPipeline.NothingIsLost | rs/src/semantic.rs:485-491 | When the reconciled tokens stand one after the other with the engine's sites in text without `\r`, that is every non-empty piece of every coloured token |
| Documents.RoundTrip | rs/src/documents.rs:158-190 | A place survives position and back if and only if it is not behind a `\r` that ends its line or the text, which is to be past its line's content |
| Documents.IndexOfExactly | rs/src/documents.rs:107-188 | Every position denotes a place on its line, or on the last line when there are fewer, within that line's content: the first at least `character` units from the line's start, or the content's end |
| Documents.PastLastLine | rs/src/documents.rs:175-188 | A position past the last line denotes the end of the text exactly when its character reaches into the last place and the text does not end in `\r` |
| Encodings.DecodesBack | rs/src/documents.rs:79-95 | The code units the lengths count decode to the text's scalar values, in UTF-8 and in UTF-16 |
| Encodings.PlacesCountUnits | rs/src/documents.rs:79-95 | A byte offset counts the UTF-8 bytes before it; a wire position counts the line feeds before it and the code units from its line's start |
| Documents.BreakIsNotAddressable | rs/src/documents.rs:158-190 | The place between the two characters of a line break does not survive, in either encoding |
| Documents.NormalizeOnce | rs/src/documents.rs:175-190 | For every position a client sends, resolving, writing and resolving again gives the same place |
| Documents.ReplicaInSync | rs/src/documents.rs:266-294 | Over any run of full and ranged edits, in either encoding, ranges that end past the last line included, the server's text equals the client's after every change |
| Documents.PartitionFindsLine | rs/src/documents.rs:98-101 | Searching the line index for a boundary finds the line whose start is the last at or before it |
| Documents.SiteIsPosition | rs/src/documents.rs:218-224 | A token's site measures to its wire position if and only if no carriage return before it in its line restarted the column |
| Documents.SiteExactly | rs/src/documents.rs:218-224 | Whatever row and column come with an offset, the line is the row's, clamped to the text's lines, and the character the wire length of as many scalar values before the offset as the column counts |
| Documents.ReturnMovesSite | rs/src/documents.rs:218-224 | In the text `x\ry` the engine's site of `y` does not measure to its wire position |
| Documents.RangeSelectsSource | rs/src/documents.rs:243-254 | With the engine's row and column, a diagnostic's range is that of its source, both ends clamped to the text, if and only if no `\r` in the line before it restarted the column; each end then resolves to the source's own if and only if it is not behind a `\r` that ends its line or the text |
| Documents.Doc.Update | rs/src/documents.rs:50-54 | The text and version are replaced and no stale line index survives |
| Documents.Doc.LineStarts | rs/src/documents.rs:59-72 | The lazily built index is the one the current text has |
| Documents.Doc.LineOf | rs/src/documents.rs:98-101 | A boundary's line is the number of line feeds before it |
| Documents.Doc.LineSpan | rs/src/documents.rs:107-119 | The span runs from the line's start to its line break, a `\r` before it or ending the text excluded, the last line's for every number past it |
| Documents.Doc.PositionAt | rs/src/documents.rs:158-163 | The position of the clamped boundary: its line, and the wire length from the line's start |
| Documents.Doc.OffsetAt | rs/src/documents.rs:175-188 | The byte offset of the place a position denotes, which `IndexOfExactly` says |
| Documents.Doc.PositionFromSite | rs/src/documents.rs:218-224 | The clamped line, and the walk back from the clamped boundary |
| Documents.Doc.ByteOfScalar | rs/src/documents.rs:135-140 | The offset of the given scalar value, or of the text's end |
| Documents.Doc.RangeFrom | rs/src/documents.rs:243-254 | The range from the site over the given number of scalar values, clamped to the text |
| Documents.Doc.ApplyChange | rs/src/documents.rs:266-280 | A full change is the new text; a ranged one replaces what lies between the two places its range denotes, cut at character boundaries only; the version is untouched |
| Documents.Doc.ApplyChanges | rs/src/documents.rs:285-294 | Every change applies to the text the one before it left, then the version is stamped |
| Gate.StepKeepsInv | rs/src/instances.rs:235-271 | Enter, re-enter, wait, spurious wake, barging entry and drop each keep the gate's invariant |
| Gate.OneHolder | rs/src/instances.rs:222-271 | In every run at most one thread has live turns, the depth counts them, and it is zero exactly when there is no holder |
| Gate.NoLostWakeup | rs/src/instances.rs:245-271 | In every run, if the gate is free and a thread waits, some woken thread has yet to look and takes the gate when it does |
| MuxRuns.StepKeepsInv | rs/src/instances.rs:156-216 | Every step of nested `parse` and `without_collector` calls, unwinding included, keeps slot, saved collectors and logs in agreement |
| MuxRuns.ParsesAreIsolated | rs/src/instances.rs:156-168 | In every run each parse returns exactly the events emitted while it was the innermost call |
| MuxRuns.SlotIsTheHoldersStack | rs/src/instances.rs:189-216 | The slot and the saved values are always the stack of the holder's live calls, and the slot is empty whenever the gate is free |
| Json.ArraysAreSelfDelimiting | rs/src/instances.rs:305-338 | Two compact JSON arrays beginning the same text are the same text: no printed array is a proper prefix of another |
| Json.PrintUnique | rs/src/instances.rs:305-338 | Printing is injective: equal texts, each value followed by nothing or by a comma or a closing bracket, come from equal values |
| Instances.PrefixMatchesOwnKeys | rs/src/instances.rs:305-346 | For entries whose language ids are equal, or do not go on one as the other's array would begin, an entry's prefix starts a key if and only if the key's entry has that same prefix |
| Instances.ClashingIdHoldsBracket | rs/src/instances.rs:305-308 | Ids that break this condition hold a space and a bracket, right where the other id ends: ids without spaces never do |
| Instances.KeysAreUnique | rs/src/instances.rs:340-346 | For such ids, equal keys mean equal prefixes and equal folders |
| Instances.FoldersAreApart | rs/src/instances.rs:340-346 | For every entry, two given folders have equal keys if and only if they are equal, and without one the key is that of the entry's own folder, or of the empty one |
| Instances.PrefixNamesTheGrammar | rs/src/instances.rs:309-338 | For such ids, prefixes are equal if and only if language, options, scope and what is loaded agree |
| Instances.ApartIdsNeeded | rs/src/instances.rs:305-308 | For every entry there is a language id, one that holds the whole prefix, whose keys the entry's reload would match: without some condition on ids the reload is not exact |
| Instances.ReloadIsExact | rs/src/instances.rs:419-423 | For such ids, invalidating an entry forgets it in every folder and leaves every other entry's instance and failure count as they were |
| Instances.LoadsAreBounded | rs/src/instances.rs:378-410 | Until its entry is reloaded a key's loader is asked at most as often as failures are left to it, and never after it answered |
| Instances.SlotIsKey | rs/src/instances.rs:340-346 | For such ids, two entries and folders share a cache slot if and only if their prefixes and their folders are the same |
| Instances.Instances.RecordFailure | rs/src/instances.rs:361-363 | For every entry with such an id and every folder, the failures counted grow by one if it is this grammar in this folder and not at all otherwise: no grammar is quarantined for another's failure |
| Instances.Instances.Get | rs/src/instances.rs:378-410 | The third failure on refuses; else what is cached is answered; else a load is cached under this key or its failure counted for it, and nothing changes for any other key |
| Instances.Instances.Invalidate | rs/src/instances.rs:419-423 | For every entry with such an id and every folder: nothing is cached or counted any more if it has the same prefix, and instance and failure count are as they were if not |
| Server.Server.Run | rs/src/server.rs:200-217 | The loop is the run of turns: what is due is analyzed, then the message handled, until `exit` |
| Server.Server.Handle | rs/src/server.rs:267-385 | Each message leaves the whole state its specification says |
| Server.Server.RunAnalysis | rs/src/server.rs:646-723 | One analysis: withdrawn without a route, refused when too large, nothing for a quarantined or failed grammar, else pushed with the version and cached unless it failed |
| Server.Server.AnalyzeDue | rs/src/server.rs:615-627 | Every document whose deadline passed is taken off and analyzed, earliest first |
| Server.Server.DidChangeFiles | rs/src/server.rs:563-601 | A manifest rebuilds the tier, drops every open document's analysis and reschedules them all; a grammar reschedules the documents it serves; `ServerLaws` says so document by document |
| Server.Server.ScheduleAll | rs/src/server.rs:598-606 | Exactly the listed documents get the new deadline |
| Server.Server.DueNow | rs/src/server.rs:616-622 | The due documents, in the order of their deadlines |
| Server.Server.Publish | rs/src/server.rs:707-716 | The client then shows exactly these diagnostics for the document and what it did for every other, and `published` still tells the documents that show something if it did before |
| Server.Server.CurrentAnalysis | rs/src/server.rs:729-735 | While the cache is fresh, whatever is cached for the document is served, and it was made from the text the document has |
| ServerRuns.DueIsExact | rs/src/server.rs:615-627 | What is due is exactly the documents whose deadline has passed, each once, in deadline order |
| ServerRuns.TakenElsewhere | rs/src/server.rs:646-723 | An analysis changes nothing kept or shown about any other document |
| ServerRuns.TakenKeepsInv | rs/src/server.rs:646-723 | Every outcome of an analysis keeps the diagnostics invariant |
| ServerRuns.HandledKeepsInv | rs/src/server.rs:267-385 | Every message, in any order, keeps the diagnostics invariant |
| ServerRuns.WhatTheClientSees | rs/src/server.rs:313-326 | After any run a document shows diagnostics if and only if it is in `published`, only open ones do, and one that is not pending shows some only if routed and was last analyzed with the text it has |
| ServerRuns.TurnIsHonest | rs/src/server.rs:707-716 | A turn pushes diagnostics only for open documents, stamped with the version they are about |
| ServerRuns.ClosedStaysSilent | rs/src/server.rs:313-326 | From any state where a document is closed, nothing non-empty is pushed for it in any run that does not open it |
| ServerRuns.DeadlinesSettle | rs/src/server.rs:615-627 | In the state any run leaves, a turn settles exactly the documents whose deadline has passed: they leave `pending` and show the verdict on their own text, and every other stays as it was and shows what it did |
| ServerLaws.MessageSchedules | rs/src/server.rs:267-385 | For every message and document, when the document is pending afterwards and until when |
| ServerLaws.MessageDocuments | rs/src/server.rs:267-385 | For every message and document, the language, version and text it has afterwards |
| ServerLaws.MessageCaches | rs/src/server.rs:267-385 | For every message and document, what is cached stays unless the document was changed or closed, or was open when the manifest changed |
| ServerLaws.MessageRest | rs/src/server.rs:267-385 | Only `didClose` pushes, once and nothing to show; only a manifest changes the tier; only `shutdown` and `exit` are remembered |
| ServerLaws.TakenPushes | rs/src/server.rs:646-716 | What one analysis pushes: a withdrawal, the refusal of a too large text, the diagnostics of a finished parse, or nothing |
| ServerLaws.TakenServes | rs/src/server.rs:717-723 | After an analysis the new one is served if and only if the parse finished without failing; a too large text is served nothing, and otherwise what was served stays |
| ServerLaws.AnalysisServes | rs/src/server.rs:615-627 | In every state a turn serves the outcome for each due document and what it served for every other |
| ServerLaws.FilesSchedule | rs/src/server.rs:563-606 | A turn that reports changed files leaves each document concerned pending at `received + debounce`, and every other pending or not as its own deadline says |
| ServerLaws.GrammarIsLookedAtAgain | rs/src/server.rs:589-601 | After any run, an open document whose grammar changed on disk is pending at `received + debounce`, and a turn at or past that time shows the verdict on its text |
| ServerLaws.ManifestStartsOver | rs/src/server.rs:577-587 | After any run, a changed manifest leaves every open document pending with nothing cached or served, and a turn at or past that time shows and serves what the new tier gives |
| ServerSession.ServedIsCurrent | rs/src/server.rs:729-735 | In every run where a document is opened only while closed, any analysis served was made from the document's current text, and only open documents are cached |
| ServerSession.ReopenIsExact | rs/src/server.rs:297-303 | In whatever state `didOpen` comes, what is served next is of the new text if and only if nothing is cached, or what is cached is for another version or of this very text |
| ServerSession.CoherenceIsExact | rs/src/server.rs:200-217 | Over every run, reopenings included, what is served is of the document's text throughout if and only if every `didOpen` that finds it open meets such a cache |
| ServerSession.NamedStaysCoherent | rs/src/server.rs:729-735 | In every run in which no version of the document is given to two texts, reopenings included, what is served is of its text throughout |
| ServerSession.ReopenServesStale | rs/src/server.rs:297-303 | For every debounce, a two-turn run after which an analysis of the empty text is served for another text |
| ServerSession.SessionInSync | rs/src/server.rs:544-556 | Over a whole session of opens, reopens, edits, closes, reloads and analyses, the server's languages, versions and texts are the client's; and if the client opens only what is closed, or gives no version to two texts, so is the text behind every analysis it is served |
| Framing.Reader.ReadMessage | rs/src/jsonrpc.rs:255-313 | The reader consumes exactly the message the specification reads off the stream, with its end, cut and no-length cases |
| Framing.ReadsFrame | rs/src/jsonrpc.rs:255-313 | A frame whose last length header, in any spelling, names its body's length is read as its body and leaves unread exactly what follows, blank lines before it, other headers and either line end allowed |
| Framing.LastLengthCounts | rs/src/jsonrpc.rs:276-299 | Over any headers the length found is `n` if and only if `n` is below 2^64 and the last length header names `n` |
| Framing.HeaderExactly | rs/src/jsonrpc.rs:282-295 | A line changes the length only if its name is `content-length`, in any case and between any ASCII white space; it then gives the number it names below 2^64, and otherwise none |
| Framing.ParsesExactly | rs/src/jsonrpc.rs:286-294 | What parses is exactly an optional plus sign, any zeros and the decimal text of a number below 2^64, between any ASCII white space, and it parses as that number |
| Framing.PassesLost | rs/src/jsonrpc.rs:294-298 | A header block without a length header, or whose last one names no number below 2^64, is passed over whole, and the next read starts right after it |
| Framing.EndsCleanly | rs/src/jsonrpc.rs:261-281 | A read finds the clean end of the stream if and only if nothing is left but line ends |
| Framing.CutIsCut | rs/src/jsonrpc.rs:264-311 | A frame of which more came than line ends and that breaks off anywhere before its end is an end inside a message, unless it stops right after a `\r` in its head |
| Framing.ReturnsEndHeaders | rs/src/jsonrpc.rs:274-311 | Carriage returns alone, and then the end of the stream, end the headers: an empty body is read, a longer one is cut, and a block without a length is passed over |
| Framing.ReadsStream | rs/src/jsonrpc.rs:255-313 | A stream of frames, with such blocks among them, yields the bodies in order, each such block reported once, then a clean end |
| Framing.WritesFrame | rs/src/jsonrpc.rs:351-358 | What is written is a well-formed frame |
| Framing.RoundTrip | rs/src/jsonrpc.rs:351-358 | Reading what was written, for any list of bodies, gives the bodies in order and then a clean end |
| Firewall.FirewallSpec | rs/src/loaders.rs:220-321 | No issue is found if and only if the tree satisfies every rule, said over all paths and all lists of alternates: root object, forbidden keys, depth, `ref`, `options.plugins`, schema version, builtin-only references, both caps |
| Firewall.ScanForbiddenKeys | rs/src/loaders.rs:365-397 | The scan adds a finding exactly when the subtree holds a forbidden key or is too deep |
| Firewall.ScanOptionsRefs | rs/src/loaders.rs:425-463 | In a tree without forbidden keys or excess depth, neither the depth cutoff nor the stop past 100 findings hides a reference |
| Firewall.ScanAltRefs | rs/src/loaders.rs:465-496 | An alternate's scan finds something exactly when what it holds under `b`, `p`, `r`, `a`, `e`, `h` or `c`, or an item of the list under `a`, names no builtin |
| Firewall.AltsExactly | rs/src/loaders.rs:495-507 | The alternates scanned are those of the list a rule's state holds, or that an object it holds has under `alts`, and as many are counted |
| Firewall.ScanRules | rs/src/loaders.rs:267-319 | The break past the alternate cap changes nothing about what is accepted |

## Left out

- The parsing engine, the dialect compilers, continuations and completion: a parse is what an oracle answers.
- Routing and the registry: a route is a function of the workspace tier, the language and the document; a second `initialize` in one session, which would replace the tier without rescheduling, is not a message of the model.
- JSON bodies and messages: framing ends at the body's bytes, and `message_of` is not part of this model.
- Lossy decoding and white space beyond ASCII in header lines.
- Saturation at the top of `usize` and `u32`: offsets, rows, columns and failure counts are unbounded.
- `Mux::begin`, `Mux::end` and `Mux::restore` called by a host outside the gate.
- The parse deadline, the compile budget and the contained panics of message handlers: a failed analysis is one outcome.
- `Server::flush`, which analyzes as `analyze_due` does with every deadline passed.
- Write failures: a turn that cannot write ends the source's loop.
- Bounding of the builtin memo across runs: the answers of one run are remembered without a limit.
- Firewall message texts and the spelling of paths inside findings: a finding is told from no finding.
- Compile-time repetition caps, sandboxed paths, watched files and manifests: file contents.
- Binary search, ordered maps and stable sorting of the standard library are functions with their documented results.
- Firewall.ScanOptionsRefs: needs the forbidden-key scan to have found nothing, as the caller's own early return ensures.
- Token-name tables, item labels, capability objects, hover and the status report: each is one branch.
- The Go port, the other TypeScript modules, the generator and the editor plugins.
