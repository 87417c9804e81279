# Verification of the patch engine, the transcript edits and the session protocols

This project models the parts of the agent runner and its orchestrator where a small slip would be hard to see, and proves what
they are for. `dafny verify dfyconfig.toml` checks all of it.

**The patch engine.** `Text` and `Rewrite` describe searching and replacing on sequences; `Patcher` holds the string patcher, the
in-place buffer patcher and the two literal replace steps. Their loop condition is that the search text still occurs, so `Rewrite`
and `Halting` settle when that loop ends, and when it agrees with a single pass. `JsLexer` is a reference lexer that reads one
character at a time; `BraceScanner` is the jumping scanner of the source, proved to stop where the lexer does. `JsGrammar` is a
grammar of well-formed JavaScript that knows neither: what it writes as a block, the scanner finds as that block. `FindFunction`
and `WrapFunction` build on it.

**The transcript log.** `Transcript` reads the log as a tree of records and walks from the last leaf to the root, on any records
whatever. `ContextEdits` and `Truncation` prove what relinking does to that chain. `ContextOps` sets the log file beside the live
list that the other backend splices, and proves that they stay equal.

**The protocols.** Every `await` of the source ends a step, and proofs range over all interleavings of steps. `TurnLoop` follows
steer and fork requests through any number of turn loops. `Framing`, `MemIpc` and `SdkIpc` are the two line-framed clients.
`WarmPool`, `WsBridge`, `Containers`, `TokenPool` and `Adoption` follow a warm container from its spawn to its session.
`Capacity` is the eviction of sessions, `Tenants` the cache in front of the tenants table.

Code that updates fields or arrays in place is modelled by classes and array methods whose postconditions equate the new state
with a function of the old one; the lemmas are about those functions. Where the source throws, the model returns an outcome.

Where the code and its comments or its callers' expectations part, the model follows the code:

- The replace loops do not end when the replacement contains the search text and a match exists. The methods require that the
  loop ends. `Rewrite.SameLengthHaltsExactly`, `Rewrite.ShorterHalts` and `Rewrite.SelfFeeding` settle replacements that are no
  longer than the search text or contain it. A longer one lets the loop end on every text when either of its ends is free of
  overlaps (`Halting.RightFreeHalts`, `Halting.LeftFreeHalts`; with both ends free, `Patcher.InertHalts`), or when it makes some
  letter rarer (`Halting.RarerHalts`). Longer replacements that overlap at both ends and make no letter rarer are left open in
  general: some never end (`Halting.EndlessWithBothEnds`).
- `find_function` compares the anchor with the opening brace only, and lets it begin there. Its body holds the anchor exactly when
  `FindFunction.AnchorInsideExactly` says so; `FindFunction.AnchorOutside` and `FindFunction.AnchorAtBrace` are texts where it does
  not.
- An injected record gets the type user for every role but system, where the live list keeps the role it is told; the commands
  know these two roles only (`ContextOps.SimulationCarries`).
- Truncation counts user and assistant pairs in the log but messages in the live list, and on the log it throws for n below one
  when there is something to trim. The two agree exactly when the list has nothing to trim (`ContextOps.TruncateAgreesExactly`).
- An injection at the start replaces the whole chain when the root names a missing parent (`ContextEdits.InjectStart`).
- An idle runner can have a request waiting in three ways. A message starts a loop even while another one runs
  (`TurnLoop.OverlapLeavesFork`); the single turn of an idle command never looks at the slots (`TurnLoop.IdleTurnLeavesSteer`);
  and a loop that has consumed a cancel does not look again after the interrupt (`TurnLoop.CancelLeavesSteer`).
  `TurnLoop.DrainedExit`, `TurnLoop.IdleTurnLeavesExactly` and `TurnLoop.CancelLeavesExactly` say exactly when they do.
- A refill that is asked for during a refill is dropped, so a hand-out leaves its class short exactly then
  (`WarmPool.AdoptFillsExactly`, `WarmPool.TakeFillsExactly`). A warm entry can be handed out before its container is known
  (`WarmPool.EarlyReady`); what becomes of it is told by `Adoption.HandsOver` and `Adoption.LateSpawnStays`.
- Restoring the token pool resumes behind the highest index ever stored, not behind the last one assigned. That can give a token
  two assignments more than another (`TokenPool.RestartExample`), and `TokenPool.RestartFairExactly` says exactly when it does not.

## Model

| member | source | states |
|---|---|---|
| Rewrite.ReplaceLoop | packages/runner/patches/lib/steps/find-replace.js:33-36 | when the loop ends it has made the one number of replacements after which the search text first no longer occurs, and returns that text |
| Rewrite.ShorterHalts | packages/runner/patches/lib/patcher.js:121-124 | a replacement shorter than the search text always lets the loop end |
| Rewrite.SameLengthHaltsExactly | packages/runner/patches/lib/patcher.js:116-124 | with a replacement of the same length the loop ends on a text if and only if the text lacks the search text or the two differ (the letters at the first difference, read as binary digits, fall at every turn) |
| Rewrite.SelfFeeding | packages/runner/patches/lib/steps/find-replace.js:33-36 | when the replacement contains the search text and the text has a match, no number of turns ends the loop |
| Rewrite.StartsDisjoint | packages/runner/patches/lib/patcher.js:145-151 | the windows of the one-pass scan are in order, do not overlap, and each is a match of the old text |
| Rewrite.StartsComplete | packages/runner/patches/lib/patcher.js:145-151 | every match of the old text overlaps a window of the scan |
| Rewrite.OnePassLength | packages/runner/patches/lib/patcher.js:140-152 | one pass with a replacement of the same length keeps the length |
| Rewrite.OnePassOutside | packages/runner/patches/lib/patcher.js:145-152 | one pass leaves every letter outside the windows as it was |
| Rewrite.OnePassInside | packages/runner/patches/lib/patcher.js:145-152 | one pass puts the replacement letter by letter into every window |
| Rewrite.NoNewMatch | packages/runner/patches/lib/patcher.js:121-124 | an inert replacement creates no match up to its own end |
| Rewrite.Sweep | packages/runner/patches/lib/patcher.js:121-126 | for an inert replacement each turn of the loop is one window of the pass |
| Rewrite.AgreeExactlyWhenInert | packages/runner/patches/lib/patcher.js:112-153 | the iterated string patcher and the one-pass scan give the same text and count on every input if and only if the replacement is inert: it does not contain the search text, and no border of the two and no inner occurrence makes a new match |
| Patcher.PatchersAgreeExactly | packages/runner/patches/lib/patcher.js:112-153 | for padded replacements the two patchers agree on every text if and only if no non-empty overlap exists at either end and the padded text differs from the search text |
| Patcher.PaddedInert | packages/runner/patches/lib/patcher.js:116-117 | for a padded replacement, being inert is being different from the search text and having no overlap at either end |
| Patcher.InertHalts | packages/runner/patches/lib/steps/find-replace.js:33-36 | an inert replacement of any length, also a longer one, lets the loop end on every text |
| Halting.RightFreeHalts | packages/runner/patches/lib/steps/find-replace.js:33-36 | a replacement of any length that does not contain the search text and whose right end can begin no match lets the loop end on every text |
| Halting.LeftFreeHalts | packages/runner/patches/lib/steps/find-replace.js:33-36 | the same when no match can begin before the replacement and reach into it: the text behind the first match gets shorter every turn |
| Halting.RarerHalts | packages/runner/patches/lib/steps/replace-in-function.js:47-50 | a replacement in which some letter stands less often than in the search text lets the loop end on every text |
| Halting.EndlessWithBothEnds | packages/runner/patches/lib/steps/find-replace.js:33-36 | for any two letters, a longer replacement that overlaps at both ends, does not contain the search text, and keeps the loop going for ever on a text of three letters |
| Rewrite.NoMatchBefore | packages/runner/patches/lib/steps/find-replace.js:33-36 | with a free left end no match begins before the place of the last replacement |
| Rewrite.NoMatchWithin | packages/runner/patches/lib/steps/find-replace.js:33-36 | with a free right end no match begins in the last replacement |
| Patcher.Pad | packages/runner/patches/lib/patcher.js:116-117 | padding keeps the replacement as a prefix, fills the rest, and reaches the length of the search text |
| Patcher.ApplyReplacement | packages/runner/patches/lib/patcher.js:112-126 | rejects exactly the longer replacement; otherwise returns the text and count of the loop with the padded replacement, at the old length and without a match |
| Patcher.CopyInto | packages/runner/patches/lib/patcher.js:148 | writes the replacement over the window and nothing else |
| Patcher.ApplyReplacementBinary | packages/runner/patches/lib/patcher.js:132-153 | overwrites the buffer in place with exactly the result of one left-to-right pass and returns the number of windows; a longer replacement leaves the buffer alone |
| Patcher.BufferPatchEffect | packages/runner/patches/lib/patcher.js:140-153 | the patched buffer has the old length, the padded replacement in disjoint windows that were matches, every other byte as before, and no old match outside a window |
| Patcher.ExecuteFindReplace | packages/runner/patches/lib/steps/find-replace.js:27-61 | with padding asked for and possible, the text has its old length and is what the loop makes of it with the replacement filled up with spaces; otherwise what the loop makes of it with the replacement itself; no match and a wrong count are told apart |
| Patcher.InertFindReplace | packages/runner/patches/lib/steps/find-replace.js:33-36 | for an inert replacement the count is the number of disjoint matches and the result the one-pass text |
| Patcher.ExecuteReplaceInFunction | packages/runner/patches/lib/steps/replace-in-function.js:27-75 | replaces only inside the body window: the text before and after the offsets is untouched, and the body is what the loop makes of it |
| JsLexer.RunSplit | packages/runner/patches/lib/steps/find-function.js:175-223 | the lexer run over a text is its run over a prefix continued over the rest |
| JsLexer.RunDeeper | packages/runner/patches/lib/steps/find-function.js:213-217 | starting deeper shifts every depth and changes nothing else |
| JsLexer.ClosesOnce | packages/runner/patches/lib/steps/find-function.js:213-217 | a block has at most one closing brace |
| JsLexer.ClosesLocally | packages/runner/patches/lib/steps/find-function.js:175-223 | the match depends only on the text up to the closing brace, wherever that text stands |
| BraceScanner.SkipStringLiteral | packages/runner/patches/lib/steps/find-function.js:226-235 | moves strictly forward within bounds and stops at the first place where the one-character lexer has left the string, or at the end of the text when there is none before it |
| BraceScanner.SkipTemplateLiteral | packages/runner/patches/lib/steps/find-function.js:238-260 | the same for a template literal with nested expressions, strings and templates |
| BraceScanner.SkipExpression | packages/runner/patches/lib/steps/find-function.js:245-255 | the inner loop stops at the first place where the lexer is back in the surrounding template, or at the end of the text |
| BraceScanner.SkipLine | packages/runner/patches/lib/steps/find-function.js:199-204 | jumping to the next line break is what the lexer does in a line comment |
| BraceScanner.SkipBlock | packages/runner/patches/lib/steps/find-function.js:205-210 | jumping behind the next comment end is what the lexer does in a block comment |
| BraceScanner.FindMatchingBrace | packages/runner/patches/lib/steps/find-function.js:175-223 | returns the first character at which the lexer's brace depth is back to zero, and -1 exactly when there is no brace at the offset or the lexer reaches the end first |
| JsGrammar.BlockMatches | packages/runner/patches/lib/steps/find-function.js:175-223 | a block of well-formed JavaScript, given by a grammar without a lexer (nested blocks, both kinds of strings with escapes, nested templates with holes, both kinds of comments), closes at its own last brace and nowhere else |
| JsGrammar.StringUnseen | packages/runner/patches/lib/steps/find-function.js:184-235 | from plain code, a string in double or single quotes leads back to the same state and moves the depth nowhere, with and without an escaped quote inside |
| JsGrammar.TemplateUnseen | packages/runner/patches/lib/steps/find-function.js:190-260 | the same for a template without holes |
| JsGrammar.HoleUnseen | packages/runner/patches/lib/steps/find-function.js:238-260 | the same for a template whose hole holds a string, whatever braces and backquotes stand in that |
| JsGrammar.CommentUnseen | packages/runner/patches/lib/steps/find-function.js:197-211 | the same for a line comment up to its line break and for a block comment up to its end |
| JsGrammar.NotInside | packages/runner/patches/lib/steps/find-function.js:184-210 | no matching brace lies inside any of these stretches |
| JsGrammar.ExprReads | packages/runner/patches/lib/steps/find-function.js:244-255 | a hole of a template is read to its own closing brace, over nested braces, strings and templates |
| JsGrammar.CodeReads | packages/runner/patches/lib/steps/find-function.js:175-223 | well-formed code is balanced wherever it stands in plain code |
| FindFunction.LastDeclaration | packages/runner/patches/lib/steps/find-function.js:115-131 | finds the last declaration keyword of the window, or -1 |
| FindFunction.LastExpression | packages/runner/patches/lib/steps/find-function.js:136-157 | finds the last function expression of either spelling, although the second spelling is searched only behind the first |
| FindFunction.FindStart | packages/runner/patches/lib/steps/find-function.js:53-72 | the function start for each style, within 500 characters before the anchor |
| FindFunction.FunctionNearest | packages/runner/patches/lib/steps/find-function.js:53-72 | seen in the whole text, the function begins at the nearest spelling of its style that ends before the anchor, at most 500 characters before it |
| FindFunction.ExecuteFindFunction | packages/runner/patches/lib/steps/find-function.js:28-109 | on success the offsets enclose exactly the block that opens at the first brace behind the function start, and hold the anchor exactly under the condition of AnchorInsideExactly; each failure has its own cause |
| FindFunction.AnchorInsideExactly | packages/runner/patches/lib/steps/find-function.js:80-96 | the recorded body holds the whole anchor if and only if the anchor begins behind the opening brace and the depth stays positive up to its end; the step compares the anchor with the opening brace only |
| FindFunction.AnchorOutside | packages/runner/patches/lib/steps/find-function.js:80-96 | a text whose recorded body ends before the anchor |
| FindFunction.AnchorAtBrace | packages/runner/patches/lib/steps/find-function.js:80-96 | a text whose anchor begins with the opening brace, so that the recorded body begins inside the anchor |
| WrapFunction.ExecuteWrapFunction | packages/runner/patches/lib/steps/wrap-function.js:27-57 | both offsets must parse and one wrapper be present; the two ordered insertions put both texts at the offsets of the old text |
| WrapFunction.Segment | packages/runner/patches/lib/steps/wrap-function.js:40-53 | a lexically self-contained text does in place what it does alone, if no seam spells a comment |
| WrapFunction.BodyCarries | packages/runner/patches/lib/steps/wrap-function.js:43-53 | the old body keeps its depth inside new blocks |
| WrapFunction.WrapKeepsMatchExactly | packages/runner/patches/lib/steps/wrap-function.js:40-53 | after wrapping, the same opening brace matches the old closing brace shifted by both wrappers if and only if the closing wrapper undoes the blocks the opening one has left open |
| JsGrammar.WrapFormed | packages/runner/patches/lib/steps/wrap-function.js:40-53 | wrapping a body between two well-formed texts keeps the match, if no slash stands at the seams |
| Transcript.WalkSound | packages/runner/src/context.ts:81-93 | the walk from any record gives a repeat-free linked path that ends at the record |
| Transcript.ChainSound | packages/runner/src/context.ts:51-93 | on any records, with cycles, dangling parents, duplicate or missing uuids: the chain is a repeat-free parent-linked path ending at the chosen leaf, whose first record has no parent, one missing from the log, or one already on the path; it is empty only without leaves |
| Transcript.IndexRecords | packages/runner/src/context.ts:54-63 | the index answers as a search for the last record with the uuid, and the parent set is exact |
| Transcript.PickLeaf | packages/runner/src/context.ts:65-79 | the leaf is the last qualifying one in file order, sidechains only when nothing else qualifies |
| Transcript.BuildChain | packages/runner/src/context.ts:51-93 | the loops compute exactly the chain of the log |
| Transcript.ChainEndsAt | packages/runner/src/context.ts:65-79 | on the fields alone: the chain ends at the last record of the file that no record names as its parent and that is not a sidechain; without one, at the last childless record; without any, there is no chain |
| Transcript.ChainByFields | packages/runner/src/context.ts:81-93 | each record of the chain names the one before it, which is the last of the file with its uuid; the first names nobody, nobody in the file, or a record of the chain |
| ContextEdits.ChainIsTrace | packages/runner/src/context.ts:81-93 | over unique uuids and acyclic parents the chain is the list of ancestors of the leaf |
| ContextEdits.RemovedLinks | packages/runner/src/context.ts:124-132 | removing a record takes out exactly that uuid and lets its children hang from its parent, with every other link as before |
| ContextEdits.RemoveFiltersChain | packages/runner/src/context.ts:119-135 | removing a record that has children takes exactly its uuid out of the chain, wherever it stands there, and leaves the chain alone if it is not on it; the log stays well-formed |
| ContextEdits.RemovedRecords | packages/runner/src/context.ts:122-134 | a removal takes one record out of the file; all others keep their order and every field but the parent |
| ContextEdits.InjectedLinks | packages/runner/src/context.ts:167-197 | injecting adds exactly one uuid, moves the children of the record it follows, and leaves every other link |
| ContextEdits.InjectedAcyclic | packages/runner/src/context.ts:167-197 | injection keeps the parents acyclic although the new record comes last in the file |
| ContextEdits.InjectAfterParent | packages/runner/src/context.ts:167-177 | injecting after a record with children puts the new uuid right behind its place in the chain, or leaves the chain alone if that record is not on it |
| ContextEdits.InjectBelow | packages/runner/src/context.ts:167-197 | injecting below a record without children makes the new record the leaf, so the chain becomes the path to that record and the new uuid |
| ContextEdits.InjectPlain | packages/runner/src/context.ts:178-185 | a plain injection appends to the chain |
| ContextEdits.InjectAfterTail | packages/runner/src/context.ts:167-177 | injecting after the last record of the chain appends |
| ContextEdits.InjectStart | packages/runner/src/context.ts:154-166 | injection at the start prepends to the chain if and only if the root's parent is null; with a dangling parent the chain becomes the new message alone |
| ContextEdits.InjectedRecords | packages/runner/src/context.ts:169-199 | an injection adds one record at the end of the file, with its uuid, kind and payload and outside any sidechain; all others keep every field but the parent |
| ContextEdits.PrependedRecords | packages/runner/src/context.ts:154-199 | the same for an injection at the start, where only the root gets a parent |
| Truncation.CutChain | packages/runner/src/context.ts:230-240 | cutting the log at a record of the chain leaves a log whose chain is the rest of the chain from there |
| Truncation.TruncateChain | packages/runner/src/context.ts:207-241 | for n of at least one the new chain is a suffix of the old one with exactly the smaller of 2n and the old number of user and assistant records, and an untrimmed log is untouched |
| Truncation.TruncatedTurns | packages/runner/src/context.ts:207-240 | the chain keeps two records of the kinds user and assistant per turn, or all there were, and begins with one of them |
| Truncation.TruncateTwice | packages/runner/src/context.ts:207-241 | truncating to m and then to n leaves the same file as truncating to the smaller of both |
| Truncation.TruncateToLastN | packages/runner/src/context.ts:207-241 | computes exactly that file, and throws exactly when n is not positive and there are more than 2n user and assistant records |
| Truncation.ConversationAt | packages/runner/src/context.ts:211-214 | the filtered list holds the user and assistant records of the chain at their places |
| ContextOps.TranscriptFile.RemoveMessage | packages/runner/src/context.ts:119-135 | relinks the file as specified, or fails on an unknown uuid without a change |
| ContextOps.TranscriptFile.InjectMessage | packages/runner/src/context.ts:143-200 | relinks and appends as specified for each of the three positions, or fails on an unknown uuid without a change |
| ContextOps.LiveList.RemoveMessage | packages/runner/src/context-ops.ts:37-43 | splices out the first message with the uuid, or fails without a change |
| ContextOps.LiveList.InjectMessage | packages/runner/src/context-ops.ts:44-66 | splices the message in behind the named one, at the start or at the end, or fails without a change |
| ContextOps.LiveList.Truncate | packages/runner/src/context-ops.ts:67-74 | keeps the last n messages |
| ContextOps.LiveList.Rewind | packages/runner/src/command-handler.ts:385-396 | cuts everything behind the named message and reports how many that were, or fails without a change |
| ContextOps.BranchChain | packages/runner/src/context.ts:51-93 | the chain of a single-branch log is its list of uuids |
| ContextOps.SingleBranch | packages/runner/src/context.ts:51-93 | a well-formed log all of whose records are on its chain, under a root that names no parent, is a single branch |
| ContextOps.RemoveOnBranch | packages/runner/src/context.ts:119-135 | on a single branch removing the root, a middle record or the tail drops it from the list |
| ContextOps.InjectAfterOnBranch | packages/runner/src/context.ts:167-177 | on a single branch injecting after a record puts the new one behind it, the tail included |
| ContextOps.InjectPlainOnBranch | packages/runner/src/context.ts:178-197 | on a single branch a plain injection appends |
| ContextOps.InjectStartOnBranch | packages/runner/src/context.ts:154-166 | on a single branch an injection at the start prepends |
| ContextOps.StepAgrees | packages/runner/src/context-ops.ts:37-66 | one remove or inject succeeds on the file exactly when it does on the live list, and keeps both representing the same uuids |
| ContextOps.Simulation | packages/runner/src/context-ops.ts:37-94 | over every sequence of removes and injects the two backends stay equal and fail on the same operations |
| ContextOps.SimulationCarries | packages/runner/src/context-ops.ts:44-66 | over every run with user and system messages, each message of the list stands in the file with its kind and payload |
| ContextOps.TruncateAgreesExactly | packages/runner/src/context-ops.ts:67-73 | for every n, both truncations of a single branch succeed with the same uuids if and only if the live list has at most n messages, that is, nothing to trim |
| TurnLoop.Runner.HandleMessage | packages/runner/src/command-handler.ts:70-95 | a message starts a turn at once, whether or not one is running |
| TurnLoop.Runner.HandleSteer | packages/runner/src/command-handler.ts:206-246 | a steer goes to its slot while busy; while idle it is dropped when blank and otherwise starts its own activity |
| TurnLoop.Runner.HandleForkAndSteer | packages/runner/src/command-handler.ts:282-307 | a fork goes to its slot while busy and starts a single turn while idle |
| TurnLoop.Runner.StreamEvent | packages/runner/src/run-turn.ts:245-266 | a turn ends at a result, or at the first event it sees while a slot is filled |
| TurnLoop.Runner.StreamOver | packages/runner/src/run-turn.ts:267-301 | the end or failure of the stream ends the turn |
| TurnLoop.Runner.ResumeLoop | packages/runner/src/command-handler.ts:106-134 | the fork slot is served before the steer slot |
| TurnLoop.Runner.SettleFork | packages/runner/src/run-turn.ts:363-420 | a failed fork is written to the steer slot, over what is there |
| TurnLoop.Runner.ResumeFork | packages/runner/src/command-handler.ts:109-122 | after a successful fork its turn starts, after a failed one the loop looks at the steer slot |
| TurnLoop.Runner.ResumeSteer | packages/runner/src/command-handler.ts:142-166 | a prepared steer starts its turn |
| TurnLoop.Runner.ResumeCancel | packages/runner/src/command-handler.ts:128-134 | after the interrupt of a cancel the loop ends and the runner is idle |
| TurnLoop.Runner.ResumeIdle | packages/runner/src/command-handler.ts:263-264 | after the single turn of an idle command the runner is idle, whatever the slots hold |
| TurnLoop.Runner.LookAtSteer | packages/runner/src/command-handler.ts:122-134 | an empty slot ends the loop, a blank steer cancels, any other is taken |
| TurnLoop.Conservation | packages/runner/src/command-handler.ts:85-170 | in every interleaving of any number of loops, each request has been received as often as it was started, cancelled, overwritten, is waiting in a slot, or is held by an activity |
| TurnLoop.OneFate | packages/runner/src/command-handler.ts:85-170 | a request received once has exactly one of these fates, so at most one turn is ever started on it |
| TurnLoop.Termination | packages/runner/src/command-handler.ts:85-170 | a run with finitely many commands takes at most five steps of its own per command |
| TurnLoop.Progress | packages/runner/src/command-handler.ts:85-170 | every suspended activity has a step to take, so a run rests only when all have finished |
| TurnLoop.SerialRun | packages/runner/src/command-handler.ts:122-170 | when messages arrive only while idle, at most one activity runs, busy says whether it does, and an idle runner has a request waiting only if its last activity consumed a cancel or was an idle turn |
| TurnLoop.DrainedExit | packages/runner/src/command-handler.ts:106-122 | a loop that ends without a cancel, or on one with nothing to interrupt, leaves the steer slot empty, and the fork slot too unless it has just come back from a fork and another fork waits |
| TurnLoop.KindsStay | packages/runner/src/command-handler.ts:70-170 | in every run the activity a message opens runs the loop and ends drained or cancelled, and the one a steer or fork opens while idle never enters the loop |
| TurnLoop.TakesSteer | packages/runner/src/command-handler.ts:122-166 | after a turn the loop takes a waiting steer and runs it as a turn of the same loop |
| TurnLoop.TakesFork | packages/runner/src/command-handler.ts:106-119 | a waiting fork goes first, and a waiting steer stays in its slot |
| TurnLoop.FailedForkSteers | packages/runner/src/command-handler.ts:106-166 | a fork that fails replaces the waiting steer, and the loop takes it as one |
| TurnLoop.TakesCancel | packages/runner/src/command-handler.ts:122-134 | a waiting cancel ends the loop, at once without a session and after the interrupt with one |
| TurnLoop.Drains | packages/runner/src/command-handler.ts:106-170 | with nothing waiting the loop ends drained and leaves the runner idle |
| TurnLoop.StreamBreaksExactly | packages/runner/src/run-turn.ts:249-266 | a stream event ends the turn if and only if it is the result or a request waits in either slot |
| TurnLoop.RunLabelled | packages/runner/src/command-handler.ts:70-170 | in every run each running turn is on a started request, cancels are the blank requests, and no blank one is steered |
| TurnLoop.OverlapLeavesFork | packages/runner/src/command-handler.ts:106-122 | a run of two overlapping loops in which that exception happens |
| TurnLoop.IdleTurnLeavesExactly | packages/runner/src/command-handler.ts:230-265 | when messages arrive only while idle, after the single turn of an idle command the idle runner has a request waiting if and only if one waited before the command, or a steer or fork arrived meanwhile |
| TurnLoop.CancelLeavesExactly | packages/runner/src/command-handler.ts:127-134 | when messages arrive only while idle, after the interrupt of a cancel the idle runner has a request waiting if and only if one waited when the cancel was consumed, or a steer or fork arrived since |
| TurnLoop.SlotsFillExactly | packages/runner/src/command-handler.ts:206-220 | in any run, with any number of loops and messages at any time: as long as no loop gets to look at the slots, a request waits if and only if one waited before, or a steer or fork arrived while the runner was busy |
| TurnLoop.IdleTurnLeavesSteer | packages/runner/src/command-handler.ts:230-265 | a run in which the single turn of an idle command leaves a steer waiting in an idle runner |
| TurnLoop.CancelLeavesSteer | packages/runner/src/command-handler.ts:127-134 | a run in which a steer that arrives during the interrupt of a cancel is left waiting by an idle runner |
| Framing.SplitJoin | packages/runner/src/mem-ipc.ts:46-48 | cutting a stream into lines loses nothing and leaves no line break inside a line |
| Framing.SplitAnywhere | packages/runner/src/mem-ipc.ts:46-48 | keeping the unfinished line as the buffer makes chunk borders invisible |
| Framing.LinesAnywhere | packages/runner/src/mem-ipc.ts:46-50 | the same for the non-blank lines |
| Framing.NonBlankKeeps | packages/runner/src/mem-ipc.ts:46-50 | skipping blank lines keeps every other line as often as it came |
| MemIpc.MemIpcClient.Send | packages/runner/src/mem-ipc.ts:86-94 | a request is accepted exactly when connected, and queued last |
| MemIpc.MemIpcClient.OnConnect | packages/runner/src/mem-ipc.ts:38-43 | a new connection starts with an empty buffer and keeps what waits |
| MemIpc.MemIpcClient.OnData | packages/runner/src/mem-ipc.ts:45-60 | the complete non-blank lines of buffer and chunk settle the oldest pending requests in order; a line without a request is dropped |
| MemIpc.MemIpcClient.OnLost | packages/runner/src/mem-ipc.ts:62-81 | an error or a close rejects everything that waits |
| MemIpc.MemIpcClient.Disconnect | packages/runner/src/mem-ipc.ts:97-107 | disconnecting rejects everything that waits, once |
| MemIpc.SettledOrWaiting | packages/runner/src/mem-ipc.ts:45-107 | by the invariant of every method a request sent once is settled once or waits, never both, and sent is settled plus pending |
| MemIpc.Pairing | packages/runner/src/mem-ipc.ts:45-94 | on one connection, whatever the chunks and whenever the requests, the k-th line that finds a request waiting settles the k-th request, and the others wait in order |
| MemIpc.SettledByLine | packages/runner/src/mem-ipc.ts:45-60 | the k-th settlement is that of the k-th request, with the line's value if the line is JSON and a rejection otherwise |
| MemIpc.SolicitedExactly | packages/runner/src/mem-ipc.ts:45-60 | the k-th non-blank line settles the k-th request at every moment if and only if no line ever comes unasked |
| SdkIpc.SdkIpcSession.HandleEvent | packages/runner/src/sdk-ipc-session.ts:105-135 | an answer to a waiting control request settles it; any other event goes to the oldest waiting consumer or into the queue |
| SdkIpc.SdkIpcSession.OnData | packages/runner/src/sdk-ipc-session.ts:69-81 | a chunk routes exactly the events of its complete lines; queue and waiters are never both filled, delivered plus queued is what was routed, and no request is settled twice |
| SdkIpc.SdkIpcSession.Next | packages/runner/src/sdk-ipc-session.ts:171-183 | a consumer gets the oldest queued event or waits |
| SdkIpc.SdkIpcSession.SendControl | packages/runner/src/sdk-ipc-session.ts:192-206 | a control request is accepted exactly when connected |
| SdkIpc.SdkIpcSession.OnTimeout | packages/runner/src/sdk-ipc-session.ts:208-214 | a timer rejects its request only if it still waits |
| SdkIpc.SdkIpcSession.OnSocketClose | packages/runner/src/sdk-ipc-session.ts:94-101 | a close of the socket wakes the waiting consumers and leaves control requests waiting |
| SdkIpc.SdkIpcSession.Close | packages/runner/src/sdk-ipc-session.ts:219-234 | closing rejects every waiting control request, each once |
| SdkIpc.ChunksJoin | packages/runner/src/sdk-ipc-session.ts:69-76 | two chunks in a row are routed as their concatenation |
| SdkIpc.ChunkingIrrelevant | packages/runner/src/sdk-ipc-session.ts:69-81 | however a stream is cut, the outcome is that of the whole stream |
| SdkIpc.RoutePartitions | packages/runner/src/sdk-ipc-session.ts:113-134 | the stream gets every event but the first answer to each waiting request, in order; a request stops waiting exactly when an answer names it |
| SdkIpc.SettledByFirst | packages/runner/src/sdk-ipc-session.ts:105-135 | each settlement is that of a waiting request by its first response, a rejection exactly when that reports a failure |
| SdkIpc.Delivery | packages/runner/src/sdk-ipc-session.ts:69-81 | with requests and timeouts between the chunks, the events handled are the parsed lines of the whole stream, each once and in order |
| WarmPool.MatchIsClass | packages/orchestrator/src/warm-pool.ts:259-264 | matching a profile is belonging to the same class of vault and agent, with empty and missing names alike |
| WarmPool.OneClass | packages/orchestrator/src/warm-pool.ts:259-264 | two pairs of names are of one class when each name is the same, or missing or empty in both |
| WarmPool.TargetIsLargest | packages/orchestrator/src/warm-pool.ts:119-135 | a class's target is the largest its profiles ask for |
| WarmPool.FirstAvailable | packages/orchestrator/src/warm-pool.ts:253-257 | the first ready, connected and matching entry |
| WarmPool.CountFilled | packages/orchestrator/src/warm-pool.ts:119-135 | filling the profiles in turn raises each class to its largest target and lowers none |
| WarmPool.NeverOverTarget | packages/orchestrator/src/warm-pool.ts:53-208 | in every interleaving no class holds more than its largest target |
| WarmPool.FullAfterRefill | packages/orchestrator/src/warm-pool.ts:112-135 | a refill or hand-out that finds no refill under way leaves every class at exactly its largest target |
| WarmPool.AdoptFillsExactly | packages/orchestrator/src/warm-pool.ts:54-76 | in every reachable state, a hand-out leaves its class at its target if and only if no refill is under way, since its own refill is dropped otherwise |
| WarmPool.TakeFillsExactly | packages/orchestrator/src/warm-pool.ts:79-96 | the same for an entry without vault and agent |
| WarmPool.FullAfterSettling | packages/orchestrator/src/warm-pool.ts:112-142 | in every run, once all spawns have settled, the next refill brings every class to its target |
| WarmPool.HandOutAfterSettling | packages/orchestrator/src/warm-pool.ts:54-96 | and so does the next hand-out, which happens exactly when the pool has a ready and connected entry of the class |
| WarmPool.FullRefillIdles | packages/orchestrator/src/warm-pool.ts:112-142 | a refill of a pool that lacks nothing changes nothing and is over at once |
| WarmPool.NeverTwice | packages/orchestrator/src/warm-pool.ts:54-192 | in every interleaving no warm id is handed out twice, or while it is still in the pool |
| WarmPool.HandedWasReady | packages/orchestrator/src/warm-pool.ts:98-106 | in every run, whatever was handed out had reported ready and was connected when it was asked for |
| WarmPool.HandedBeforeSpawned | packages/orchestrator/src/warm-pool.ts:98-101 | an entry handed out lacks its container exactly while its spawn has not settled |
| WarmPool.EarlyReady | packages/orchestrator/src/warm-pool.ts:112-113 | a run in which an entry is handed out before its spawn settles, and the refill that follows is dropped |
| WarmPool.Pool.Adopt | packages/orchestrator/src/warm-pool.ts:54-76 | hands out the first available entry of the class and starts a refill; nothing available means no change |
| WarmPool.Pool.Take | packages/orchestrator/src/warm-pool.ts:79-96 | the same for an entry without vault and agent |
| WarmPool.Pool.MarkReady | packages/orchestrator/src/warm-pool.ts:98-110 | marks the entry with the id, if it is still in the pool |
| WarmPool.Pool.Refill | packages/orchestrator/src/warm-pool.ts:112-143 | the part before the await, dropped while another refill is under way |
| WarmPool.Pool.OnSpawned | packages/orchestrator/src/warm-pool.ts:161-172 | records the container on the entry, also when it has left the pool |
| WarmPool.Pool.OnSpawnFailed | packages/orchestrator/src/warm-pool.ts:180-183 | takes the entry out of the pool if it is still there |
| WarmPool.Pool.OnRefillSettled | packages/orchestrator/src/warm-pool.ts:137-142 | when every spawn of a refill has settled, the next refill may pass |
| WarmPool.Pool.OnDestroyed | packages/orchestrator/src/warm-pool.ts:206-207 | empties the pool |
| WarmPool.Pool.SpawnWarmContainer | packages/orchestrator/src/warm-pool.ts:145-158 | pushes a fresh entry of the profile's class |
| WarmPool.Pool.FindReady | packages/orchestrator/src/warm-pool.ts:253-257 | the loop finds the first available entry, or reports that none is |
| WsBridge.RunMatched | packages/orchestrator/src/ws-bridge.ts:34-39 | over every run of registrations, rekeyings and closes each registered socket carries the id it is registered under |
| WsBridge.RekeyMatchedExactly | packages/orchestrator/src/ws-bridge.ts:599-608 | a rekeying keeps that match if and only if there is nothing to move or the new id is not empty |
| WsBridge.SupersededForever | packages/orchestrator/src/ws-bridge.ts:216-239 | a superseded or closed socket never serves again, and its close changes nothing, whatever happens in between |
| WsBridge.TakeOver | packages/orchestrator/src/ws-bridge.ts:34-38 | registering a new socket under a served id supersedes the old one at once |
| WsBridge.CloseFrees | packages/orchestrator/src/ws-bridge.ts:216-239 | the close of the serving socket takes exactly that session off |
| WsBridge.FirstIdServes | packages/orchestrator/src/ws-bridge.ts:34-39 | the first id a socket names is the session it serves, and later ones change nothing |
| WsBridge.RekeyServes | packages/orchestrator/src/ws-bridge.ts:599-608 | rekeying lets the old session's socket serve the new session and changes no third one |
| WsBridge.WsBridge.OnConnection | packages/orchestrator/src/ws-bridge.ts:22-23 | a new connection registers nothing |
| WsBridge.WsBridge.OnMessage | packages/orchestrator/src/ws-bridge.ts:34-39 | registers the socket with the first id it sends, and never again |
| WsBridge.WsBridge.OnClose | packages/orchestrator/src/ws-bridge.ts:216-239 | only the active socket's close clears the session and stops it unless it has failed, was stopped, or the server shuts down |
| WsBridge.WsBridge.RekeyConnection | packages/orchestrator/src/ws-bridge.ts:599-608 | moves the socket and its id to the new session; what the session manager keeps under the old id stays |
| Containers.MovedRows | packages/orchestrator/src/docker.ts:291-298 | a rekeying moves the container and touches no third session |
| Containers.DockerManager.RekeySession | packages/orchestrator/src/docker.ts:291-298 | moves the recorded container, or reports that there is none |
| Containers.DockerManager.OnStarted | packages/orchestrator/src/docker.ts:171-173 | a started container is recorded under its session |
| Containers.NeverShared | packages/orchestrator/src/docker.ts:171-298 | in every run of starts, adoptions and kills no container is recorded for two sessions, and only started ones are, so a kill stops its own session's container and no other's |
| Containers.DockerManager.EndKill | packages/orchestrator/src/docker.ts:206-220 | the record goes whether or not stopping worked |
| Containers.DockerManager.RecoverFromSessions | packages/orchestrator/src/docker.ts:245-288 | the map afterwards holds exactly the running ones, and the three lists are in order |
| Containers.RecoveredRows | packages/orchestrator/src/docker.ts:257-263 | a session is mapped again if and only if its own container runs, and to that container |
| Containers.SortedAll | packages/orchestrator/src/docker.ts:257-280 | the three lists together hold every session once |
| Containers.SortedBy | packages/orchestrator/src/docker.ts:245-288 | each list holds exactly the sessions whose inspection had that result; a failed inspection counts as not running |
| Containers.K8sManager.OnCreated | packages/orchestrator/src/k8s-manager.ts:210-217 | pod and namespace are recorded together; both maps keep the same keys |
| Containers.K8sManager.BeginKill | packages/orchestrator/src/k8s-manager.ts:234-241 | a kill deletes the pod in its own namespace, never in the default one by accident |
| Containers.K8sManager.EndKill | packages/orchestrator/src/k8s-manager.ts:265-266 | both entries go together |
| Containers.K8sManager.RekeySession | packages/orchestrator/src/k8s-manager.ts:355-376 | the session takes over the pod together with the pod's namespace; the key sets stay equal |
| Containers.K8sManager.RecoverFromSessions | packages/orchestrator/src/k8s-manager.ts:282-353 | both maps are rebuilt with equal keys from the listed pods |
| Containers.RecoveredValid | packages/orchestrator/src/k8s-manager.ts:328-345 | exactly the sessions with a running, named pod come back, each with its own pod and that pod's namespace |
| Containers.LivePodIs | packages/orchestrator/src/k8s-manager.ts:282-353 | a session gets back the last pod listed for it, exactly when that runs and has a name |
| Adoption.HandsOver | packages/orchestrator/src/server/services/session-runtime.ts:152-179 | whatever else happens while the credentials are awaited, if the warm socket stays open and the warm container is not killed or moved, the warm id ends up in none of the token, connection and container maps and the session has its token and the same socket; it has a container if and only if the warm one was recorded before or its spawn settled meanwhile, and then the one recorded last |
| Adoption.LateSpawnStays | packages/orchestrator/src/warm-pool.ts:161-172 | a spawn that settles after the last step stays recorded under the warm id, and the session without a container |
| Adoption.OthersKept | packages/orchestrator/src/server/services/session-runtime.ts:152-179 | the two steps leave tokens, sockets and containers of all other ids alone |
| Adoption.BeginAdoption | packages/orchestrator/src/server/services/session-runtime.ts:154-155 | in one step the warm token is released and the session gets the next one of the rotation |
| Adoption.FinishAdoption | packages/orchestrator/src/server/services/session-runtime.ts:177-179 | socket and container are moved, each if present |
| Capacity.StopAllRows | packages/orchestrator/src/server/services/session-runtime.ts:430-436 | exactly the listed sessions are stopped, no other row changes |
| Capacity.StopAllCount | packages/orchestrator/src/sessions.ts:184-191 | every stopped evictable session lowers the active count by one |
| Capacity.ShortestPrefix | packages/orchestrator/src/server/services/capacity.ts:39-50 | the stopped sessions are the shortest prefix of the least recently active evictable ones that brings the count below the maximum, or all of them if none does |
| Capacity.LeastRecentFirst | packages/orchestrator/src/sessions.ts:244-257 | a stopped session was active no later than any evictable one that is kept |
| Capacity.EvictionSpares | packages/orchestrator/src/server/services/capacity.ts:29-64 | a pinned session, and one that is neither ready nor idle, survives every eviction as it is |
| Capacity.NoneLeftToEvict | packages/orchestrator/src/server/services/capacity.ts:29-64 | when everything on the list is stopped, no unpinned session is ready or idle |
| Capacity.AppContext.StopSessionRuntime | packages/orchestrator/src/server/services/session-runtime.ts:430-436 | stops the row and drops the session's socket, container and token |
| Capacity.AppContext.EnsureCapacity | packages/orchestrator/src/server/services/capacity.ts:29-64 | stops exactly that prefix and touches nothing else; fails if and only if stopping everything evictable is not enough; does nothing without a maximum or below it |
| Tenants.PlainKeyed | packages/orchestrator/src/tenants.ts:72-193 | every operation keeps ids, key hashes and namespaces unique |
| Tenants.StepCoherent | packages/orchestrator/src/tenants.ts:72-193 | every operation keeps each cached tenant equal to the row with that hash, changes the table as it would without a cache, and answers the same |
| Tenants.CacheIsInvisible | packages/orchestrator/src/tenants.ts:54-193 | every run of operations answers exactly as the table alone would |
| Tenants.OldKeyDies | packages/orchestrator/src/tenants.ts:161-192 | after a rotation or deletion the old key opens nothing, cached or not |
| Tenants.LookupsAgree | packages/orchestrator/src/tenants.ts:107-124 | a tenant looked up by id is the one its key opens, whether or not that is cached |
| Tenants.ReadsBack | packages/orchestrator/src/tenants.ts:72-159 | what a creation or an update returns is what both lookups answer next |
| Tenants.CreatedTenant | packages/orchestrator/src/tenants.ts:73-105 | a creation is refused exactly when id, hash or namespace is taken; otherwise its key opens the tenant field by field, with the default namespace and ten sessions |
| Tenants.UpdatedTenant | packages/orchestrator/src/tenants.ts:131-159 | an update changes the given fields and the time stamp of one tenant, which its key opens as before |
| Tenants.RotatedTenant | packages/orchestrator/src/tenants.ts:162-181 | a rotation is refused exactly when another tenant has the new hash; otherwise the new key opens the tenant |
| Tenants.DeletedTenant | packages/orchestrator/src/tenants.ts:183-192 | what has been deleted is missing for every operation, and no other row changes |
| Tenants.TenantManager.Create | packages/orchestrator/src/tenants.ts:73-105 | inserts and caches the tenant with its defaults, or fails on a taken id, hash or namespace without a change |
| Tenants.TenantManager.GetByApiKey | packages/orchestrator/src/tenants.ts:113-124 | answers as a direct lookup of the table |
| Tenants.TenantManager.Update | packages/orchestrator/src/tenants.ts:131-159 | changes the given fields and the cached tenant; without fields nothing changes |
| Tenants.TenantManager.RotateApiKey | packages/orchestrator/src/tenants.ts:162-181 | replaces the hash and moves the cache entry; a failing update leaves the old entry out of the cache only |
| Tenants.TenantManager.Delete | packages/orchestrator/src/tenants.ts:183-192 | removes row and cache entry together |
| TokenPool.ParseWritten | packages/orchestrator/src/token-pool.ts:15-24 | any list of clean tokens written with commas is read back as it was |
| TokenPool.ParsePadded | packages/orchestrator/src/token-pool.ts:15-24 | white space around the tokens of a list does not matter |
| TokenPool.ParsedAreCarried | packages/orchestrator/src/token-pool.ts:15-24 | whatever the text, its tokens are non-empty, without comma, and without white space at either end |
| TokenPool.ShareExact | packages/orchestrator/src/token-pool.ts:47-53 | after k assignments every token has had one per completed round, and one more if the current round has served it |
| TokenPool.Fair | packages/orchestrator/src/token-pool.ts:47-53 | since construction or the last restore with a maximum, the shares of any two tokens differ by at most one |
| TokenPool.RestartFairExactly | packages/orchestrator/src/token-pool.ts:35-53 | across a restart with the same tokens, the shares before and after it taken together stay within one of each other for ever if and only if the restored position is the token whose turn it was, or the restart fell between two rounds |
| TokenPool.RestartFromTable | packages/orchestrator/src/sessions.ts:208-211 | from a fresh pool whose sessions all stay in the table, that is the case if and only if no second round had begun or a round had just ended |
| TokenPool.RestartExample | packages/orchestrator/src/token-pool.ts:41-53 | three tokens, four assignments, a restart and one more assignment: three for the first token, one for each other |
| TokenPool.TokenPool.Create | packages/orchestrator/src/token-pool.ts:15-24 | fails exactly when no token is left after cleaning |
| TokenPool.TokenPool.Restore | packages/orchestrator/src/token-pool.ts:35-44 | takes over the stored indices that still name a token, and restarts the rotation behind the given maximum, which is fair towards the rotation before exactly as RestartFairExactly says |
| TokenPool.RestoredExactly | packages/orchestrator/src/token-pool.ts:35-39 | after a restore a session holds the index of its last row in range, or without one what it held before |
| TokenPool.TokenPool.Assign | packages/orchestrator/src/token-pool.ts:47-53 | gives the next token of the rotation and keeps every stored index in range |
| TokenPool.TokenPool.Release | packages/orchestrator/src/token-pool.ts:67-69 | forgets one session and leaves the rotation alone |
| TokenPool.KeepsItsToken | packages/orchestrator/src/token-pool.ts:47-69 | whatever other sessions do after its assignment, a session holds the token whose turn it was then, and none once it is released |
| TokenPool.TokenPool.CountUsage | packages/orchestrator/src/token-pool.ts:72-81 | the counts are exact and add up to the number of holding sessions |
| TokenPool.UsageAddsUp | packages/orchestrator/src/token-pool.ts:72-81 | the usage counts add up to the number of sessions that hold a token |
| TokenPool.CountHeld | packages/orchestrator/src/token-pool.ts:72-81 | one pass over the held indices counts the holders of every token |

## Left out

- Special `$` patterns that JavaScript's `replace` interprets in a replacement, and the regex modes of the replace steps.
- Variable interpolation, `parseInt`, the function's name in `find_function`, step diagnostics and `insert`.
- Regex literals in JavaScript text, and comments in the holes of a template: the scanner takes their characters as they come, and
  so do the lexer and `JsGrammar`. JavaScript's UTF-16 code units are Dafny characters here.
- UTF-8 decoding across chunk borders and JSON text: a line is parsed by a function given as a parameter, which is total.
- `BraceScanner.SkipExpression`: the inner loop of the template skipper is a method of its own, since the two call each other.
- `Patcher.ApplyReplacement`: an empty search text, on which the loop never ends, and every other input on which it does not end,
  are excluded by the requirement that it ends; `Patcher.ApplyReplacementBinary` excludes the empty search text likewise.
- `Patcher.ExecuteFindReplace`: requires that its loop ends, as `Patcher.ExecuteReplaceInFunction` does. For longer replacements
  that overlap at both ends and make no letter rarer no condition for that is given.
- File reading and writing, timestamps, random uuids and warm ids (fresh ones are assumed to be new), and the message contents.
- `ContextOps.LiveList.RemoveMessage`: the list is read and spliced in one step; edits by others between the two awaits are not
  modelled. The list follows the array semantics of the mock memory server; the real server is not part of this model.
- `ContextOps.Simulation`: starts from a single branch whose root has no parent; on other logs the edits are described by the
  lemmas of `ContextEdits`, and truncation by `ContextOps.TruncateAgreesExactly`.
- `readSessionChain`'s filter by type, `getContextStats`, snapshots, compaction, `set_options` and permission commands.
- `TurnLoop.Runner.StreamEvent`: the SDK stream itself, its first-event timeout and heartbeats; a turn ends by a stream event, an
  end or a failure that may come at any time. Execution errors and status messages sent to the orchestrator are not modelled.
- The background drain and merge after a fork, and the session and socket objects it replaces.
- Connection retries, and the `session_id` captured from the first SDK event.
- `SdkIpc.Delivery`: one session without a close; what a close does is stated by the methods.
- Progress of a refill after a dropped request, and the entries of `destroy` while its kills are awaited.
- `WarmPool.Pool.SpawnWarmContainer`: the token assigned to the warm id and released on failure; `TokenPool` has both operations.
- `WsBridge.RunMatched`: the runs rekey to non-empty ids only, as session ids are; `WsBridge.RekeyMatchedExactly` covers the rest.
- `Containers.DockerManager.RecoverFromSessions`: runs at startup, without interleaving; inspecting a container is a function.
- Namespaces of pods are set when a pod is created; label patches, pod addresses and the cluster itself are not modelled.
- `Capacity.AppContext.EnsureCapacity`: runs without interleaving. With other handlers between two stops the candidates, read once
  at the start, may have changed state. The order among equally old sessions is left open, as in the query.
- Per-tenant counts and the rest of the sessions table, `rollbackSession`, `sendAndCollect` and error categories.
- `Tenants.CacheIsInvisible`: the hash is any function of the key and the clock is a parameter; `list` and its order are left out.
- `TokenPool.TokenPool.Restore`: stored indices are natural numbers, as `assign` produces them. A restart with another list of
  tokens is not compared with the rotation before it.
- HTTP routes, authentication middleware, metrics, logging, prompts and environment building.
