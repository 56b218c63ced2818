# Release and translation tooling of OpenClaw, verified

This project models algorithms and protocols from the maintenance scripts of the
vendored OpenClaw and proves what they keep, for all inputs and all interleavings.
Check it with `dafny verify dfyconfig.toml`.

| part | modules |
|---|---|
| translation sync (`control-ui-i18n.ts`) | `PiRpcClient`, `PromptHistory`, `Session`, `TranslationBatches`, `TranslateBatch`, `BatchAnswers`, `LocaleTree`, `TranslationMemory`, `SyncLocale`, `SyncProperties`, `SyncFixedPoint`, `SyncOrigins` |
| source scanners, image headers, worker pools | `ArgumentScanner`, `ArgumentGrammar`, `JpegDimensions`, `WorkerPool` |
| supervised child processes | `CommandSupervisor` |
| build numbers and the update feed | `SparkleBuild`, `Appcast` |
| schema canonicalisation and naming | `StableJson`, `SchemaRegistry` |
| generated documentation blocks | `BlockLines` |
| process-tree CPU time | `ProcessTree` |
| issue labelling | `LabelBatches`, `LabelCheckpoints` |
| shared vocabulary | `Wrappers`, `Text`, `OrderedMap`, `Sorting` |

## How it is modelled

**Translation sync.** The request/response client is a deterministic state machine whose
events are the calls, the stdout lines, the timers, the write callbacks and the process
events; class `Client` performs each event on its fields and is proved equal to the
machine. A prompt's message text plays no part in the protocol and is left out; prompt
calls and requests are numbered in order. `Session` adds pi itself (at most one
`agent_end` per request, and only after that request was sent; which answer comes when is
free) and the driver, which closes the client after any failure. `TranslateBatch` draws
every reply, good or bad, from an arbitrary sequence. `SyncLocale` is the whole run for
one locale, from the files to the files. Hashing, the cache key, the collation, the
configured provider and model, the clock, and the readers and writers of the four files
are parameters (`Env`, `Moment`). The fixed-point theorem assumes of them what
`SyncFixedPoint.Laws` lists, and no more than that run needs: the collation is total and
transitive and does not tie two source keys; no two source keys share a cache key, and
none has an empty one; the locale file of a tree that a run builds reads back with the
same flat texts (its properties may come back in another order); metadata with exact
counts, the glossary and the memory's lines read back as written. The placeholder check
is a parameter that accepts or rejects. `SyncOrigins` says of the inputs alone, key by key,
what such a run does; `PromptHistory` says of the events alone what becomes of each prompt.
`BatchAnswers` lets a session carry out a batch's
operations and says whose answer each translation is.

**Interleavings.** Worker pools, the command supervisor and the labelling checkpoints are
state machines too. A step is what JavaScript runs between two awaits or in one callback.

**Imperative parts.** Objects whose methods change fields are classes, loops are methods with
invariants, and each method is proved equal to a function or a machine step that the
lemmas then speak about. `LabelBatches` gives the generator's yields as a sequence.

## Where the code does less than one would expect

Each of these is stated exactly.

* Reusing a client after a failure would let answers cross, because `agent_end` carries
  no request id: it can go wrong, in some continuation, exactly when the client still
  owes an earlier request a text (`ReuseIsSafeIff`, `CrossingWithoutReset`), and is safe
  in every continuation otherwise (`SafeReuse`). The driver's reset after every failure is
  what makes `AnswersNeverCross` true.
* A stdout line holding JSON `null` while a prompt is pending makes the line handler throw,
  which nobody catches and which ends the script (`Client.HandleStdoutLine`). The
  machine goes on after such a line, so what it never does the script never does either.
* The option `--force` has no effect: with it or without it a sync gives the same texts,
  metadata and files (`ForceHasNoEffect`). The branch it guards is never taken, since a
  key still without a text has none in the locale file either.
* Rebuilding a locale tree loses keys that start with a dot, that continue one another, or
  that pass through a name every object inherits, such as `constructor`; for all other key
  sets, and only for them, the round trip holds (`RoundTripIff`, `NameSurvivesIff`,
  `InheritedNameIsLost`).
* If killing the child fails inside the timeout callback of `runCommand`, the promise is
  settled there and the callback then arms a wait that nobody clears. No timer is live
  after settling in every other case (`TimersAfterSettling`, `StrayWaitHappens`), and the
  stray wait changes nothing when it fires (`StrayWaitChangesNothing`).
* Section B.1.1.2 of ITU-T T.81 allows fill bytes before any marker. The reader takes what
  follows one for a marker and the next two bytes for a length, jumps that far, and reports
  exactly what frame is to be found there (`FillByteIff`): before a frame header, none with
  at most 48 KiB to come (`FillByteHidesFrame`), and the wrong one if a frame header stands
  at the jump (`FillByteMisleads`, `WrongDimensions`).
* Splitting undoes joining only for arguments that are trimmed and balanced with a
  non-empty last one (`SplitUndoesJoinIff`).
* Writing a documentation block twice replaces the first version only if the end marker
  shows up in no line above its own (`SecondWriteReplacesIff`).
* The labeller's state file is rewritten in place. If it is killed while doing so, the file
  is unreadable, the next run starts fresh, and every checkpoint is lost
  (`TornSaveForgets`, `TornSaveHappens`). In every history an item of a batch saved since
  the last torn save is never put to the model again (`NeverClassifiedAgain`,
  `CheckpointedIff`).

## Model

| member | source | states |
|---|---|---|
| PiRpcClient.ExtractTranslationResult | openclaw-vendored/scripts/control-ui-i18n.ts:1321-1350 | the newest assistant message that failed or has content decides; none such is an error |
| PiRpcClient.NewestAnswerDecides | openclaw-vendored/scripts/control-ui-i18n.ts:1321-1350 | any messages, an assistant message, then only messages that say nothing: its error text trimmed, or "pi error", or its content is the result |
| PiRpcClient.BlockTextsJoin | openclaw-vendored/scripts/control-ui-i18n.ts:1340-1346 | the content is every text block once, in order, and nothing of the others |
| PiRpcClient.StepKeepsInv | openclaw-vendored/scripts/control-ui-i18n.ts:1164-1318 | each event keeps: one pending prompt at most and it is the latest, timers exactly for it, sends in call order, timed out means closed; and nothing settled is ever changed |
| PiRpcClient.RunKeepsInv | openclaw-vendored/scripts/control-ui-i18n.ts:1153-1318 | the same over every interleaving of calls, lines, timers, write callbacks and process events |
| PiRpcClient.OneAtATime | openclaw-vendored/scripts/control-ui-i18n.ts:1240-1305 | when a request is sent, every earlier one has settled |
| PiRpcClient.LateWriteErrorIsSilent | openclaw-vendored/scripts/control-ui-i18n.ts:1289-1299 | a write error for a prompt no longer pending changes nothing |
| PiRpcClient.ClosedClientSendsNothing | openclaw-vendored/scripts/control-ui-i18n.ts:1240-1248 | after closing, no run sends anything and every later turn is refused |
| PiRpcClient.TimeoutRefusesLaterPrompts | openclaw-vendored/scripts/control-ui-i18n.ts:1260-1272 | after a timeout every later prompt is refused unsent |
| PiRpcClient.EveryCallCanSettle | openclaw-vendored/scripts/control-ui-i18n.ts:1240-1305 | from any reachable state the client's own turns and timers can settle every call |
| PiRpcClient.Client.HandleStdoutLine | openclaw-vendored/scripts/control-ui-i18n.ts:1192-1238 | the method is the machine's step for a line, whose effect on each prompt `FirstDecisionSettles` and `UndecidedStaysPending` fix; it throws exactly on JSON null with a prompt pending |
| PiRpcClient.Client.RejectPendingWith | openclaw-vendored/scripts/control-ui-i18n.ts:1184-1190 | empties the slot, stops its clocks and rejects its promise |
| PiRpcClient.Client.TakeTurn | openclaw-vendored/scripts/control-ui-i18n.ts:1240-1305 | the machine's step that starts the next prompt, or refuses it when closed |
| PiRpcClient.Client.TimerFired | openclaw-vendored/scripts/control-ui-i18n.ts:1260-1272 | the machine's timeout step |
| PiRpcClient.Client.WriteDone | openclaw-vendored/scripts/control-ui-i18n.ts:1289-1299 | the machine's write-callback step |
| PiRpcClient.Client.ProcessClose | openclaw-vendored/scripts/control-ui-i18n.ts:1164-1173 | closing comes before rejecting the pending prompt |
| PiRpcClient.Client.Close | openclaw-vendored/scripts/control-ui-i18n.ts:1307-1318 | closing marks the client closed and leaves the pending prompt to its events |
| PromptHistory.HistoryTells | openclaw-vendored/scripts/control-ui-i18n.ts:1153-1318 | in every history the events alone tell who has settled and how, who is pending, what was sent, and whether the client is closed |
| PromptHistory.FirstDecisionSettles | openclaw-vendored/scripts/control-ui-i18n.ts:1204-1299 | a request that went out is settled by the first of its own refusal, any `agent_end`, its timeout, its write error, and the failing or closing of the process, with that event's outcome |
| PromptHistory.UndecidedStaysPending | openclaw-vendored/scripts/control-ui-i18n.ts:1204-1299 | no other event settles it: it stays pending, acknowledged exactly if a success line bore its id |
| PromptHistory.ClosedClientRefuses | openclaw-vendored/scripts/control-ui-i18n.ts:1241-1244 | a turn that finds the client closed is refused at once and never written |
| PromptHistory.EveryPromptIsAccounted | openclaw-vendored/scripts/control-ui-i18n.ts:1240-1305 | every prompt is in exactly these cases: before its turn, refused, settled by its first deciding event, or pending |
| Session.AnswersNeverCross | openclaw-vendored/scripts/control-ui-i18n.ts:1204-1236 | in every run, a text that resolves a prompt is pi's own answer to that prompt |
| Session.SessionRunKeepsInv | openclaw-vendored/scripts/control-ui-i18n.ts:1499-1513 | over every run all prompts of a client but the last have resolved with their own answers |
| Session.ReuseIsSafeIff | openclaw-vendored/scripts/control-ui-i18n.ts:1204-1236 | after asking an idle client again, some continuation lets an earlier request's text resolve the prompt exactly when the client still owes an earlier request a text |
| Session.SafeReuse | openclaw-vendored/scripts/control-ui-i18n.ts:1204-1236 | when it owes none, in every continuation a text that resolves the prompt is its own answer |
| Session.CrossingWithoutReset | openclaw-vendored/scripts/control-ui-i18n.ts:1382-1382 | without the reset, a refused request's late answer resolves the next prompt |
| TranslationBatches.BuildTranslationBatches | openclaw-vendored/scripts/control-ui-i18n.ts:1085-1109 | the loop packs as specified: the batches concatenate to the input, each fits, and no other such split has fewer; `BatchesAreSent` says what fitting means for the texts sent |
| TranslationBatches.PackIsFewest | openclaw-vendored/scripts/control-ui-i18n.ts:1085-1109 | greedy packing uses no more batches than any split under the same limits, from any open batch on |
| TranslationBatches.ChargeCoversEstimate | openclaw-vendored/scripts/control-ui-i18n.ts:897-899 | estimate and charge differ by two characters an item, so a batch of several items keeps the estimate within budget |
| TranslationBatches.ChargeOf | openclaw-vendored/scripts/control-ui-i18n.ts:1092-1104 | wherever an item stands it adds the lengths of key and text and ten characters |
| TranslationBatches.PayloadSize | openclaw-vendored/scripts/control-ui-i18n.ts:563-571 | the charge is the length of the batch's indented JSON text, and falls short of it exactly when something has to be escaped |
| TranslationBatches.BatchesAreSent | openclaw-vendored/scripts/control-ui-i18n.ts:1085-1109 | one to twenty items each; the JSON text of several plain items is within budget; no batch is closed with fewer than twenty items while the next would still have fitted |
| TranslateBatch.TranslateBatch | openclaw-vendored/scripts/control-ui-i18n.ts:1352-1414 | the retry-and-split recursion over the client does what the specification, which `ReplyDecides` unfolds, says: outcome, prompts used, operations on the client, depth |
| TranslateBatch.TimeoutIff | openclaw-vendored/scripts/control-ui-i18n.ts:871-873 | an error is a timeout exactly when its message spells "timed out" somewhere, each letter in either case |
| TranslateBatch.TimeoutAnywhere | openclaw-vendored/scripts/control-ui-i18n.ts:1266-1270 | so the client's own timeout message is one, whatever its label and duration |
| TranslateBatch.ReplyDecides | openclaw-vendored/scripts/control-ui-i18n.ts:1352-1414 | an accepted reply ends the batch; a timeout asks for the first half and after its success for the second, or gives up a single item; any other failure asks for the whole batch once more, and then fails with the second error unless that is a timeout of several items |
| TranslateBatch.TimeoutAsksFirstHalf | openclaw-vendored/scripts/control-ui-i18n.ts:1386-1396 | after a timeout of several items the client is reset and the next prompt is for the first half, rounded up |
| TranslateBatch.AcceptIff | openclaw-vendored/scripts/control-ui-i18n.ts:1366-1377 | a reply is accepted exactly when every item has a text that is not blank; otherwise the first item without one is named |
| TranslateBatch.RepliesComeInTurn | openclaw-vendored/scripts/control-ui-i18n.ts:1352-1414 | each reply is used for one prompt, in turn |
| TranslateBatch.AttemptsBounded | openclaw-vendored/scripts/control-ui-i18n.ts:1352-1414 | at most 4n - 2 prompts for n items, whatever the replies |
| TranslateBatch.BoundIsTight | openclaw-vendored/scripts/control-ui-i18n.ts:1352-1414 | for every batch some replies make it succeed after exactly 4n - 2 |
| TranslateBatch.DepthBounded | openclaw-vendored/scripts/control-ui-i18n.ts:1388-1400 | the depth grows by at most k whenever n <= 2^k |
| TranslateBatch.SuccessTranslates | openclaw-vendored/scripts/control-ui-i18n.ts:1352-1414 | a batch that returns has exactly the item keys in item order, each text non-blank and given by a reply to a batch with that key |
| TranslateBatch.BatchIsDisciplined | openclaw-vendored/scripts/control-ui-i18n.ts:1361-1414 | a client that failed is never asked again: every operation is one the session allows |
| TranslateBatch.TranslateDrives | openclaw-vendored/scripts/control-ui-i18n.ts:1514-1545 | a batch continues any disciplined run |
| BatchAnswers.DriveIsSession | openclaw-vendored/scripts/control-ui-i18n.ts:1361-1382 | in every session run that carries out a list of operations, the driver goes through exactly the states of the discipline |
| BatchAnswers.DrivenIsEnabled | openclaw-vendored/scripts/control-ui-i18n.ts:1499-1513 | whatever the discipline lets a batch do next, the session can do |
| BatchAnswers.RepliesAreOwn | openclaw-vendored/scripts/control-ui-i18n.ts:1361-1378 | every parsed reply of such a run is pi's own answer to the request that asked for that batch |
| BatchAnswers.BatchTextsAreOwn | openclaw-vendored/scripts/control-ui-i18n.ts:1352-1414 | so every text in a returned batch map is pi's own answer to a request that asked for a batch with that key |
| BatchAnswers.OneBatchRuns | openclaw-vendored/scripts/control-ui-i18n.ts:1361-1378 | such runs exist: a new client is asked, answers, and its text is accepted |
| LocaleTree.FlattenTranslations | openclaw-vendored/scripts/control-ui-i18n.ts:326-336 | the recursive walk fills the map as the specification does |
| LocaleTree.FlattenSound | openclaw-vendored/scripts/control-ui-i18n.ts:326-336 | every flat key and text comes from a leaf on a path that spells the key |
| LocaleTree.FlattenComplete | openclaw-vendored/scripts/control-ui-i18n.ts:326-336 | every leaf's key is in the flat map |
| LocaleTree.SetThenAt | openclaw-vendored/scripts/control-ui-i18n.ts:338-353 | for any key: a value that lands is found at its path and hides texts below; texts on the way, as far as the walk gets, are gone; all others stay |
| LocaleTree.StorableLands | openclaw-vendored/scripts/control-ui-i18n.ts:338-353 | the value lands, whatever the tree, for names none of which leads out of it |
| LocaleTree.SetAddsOnlyItsPath | openclaw-vendored/scripts/control-ui-i18n.ts:338-353 | whatever the key, no text appears anywhere else |
| LocaleTree.LeavesArePrefixFree | openclaw-vendored/scripts/control-ui-i18n.ts:326-336 | paths of leaves are never prefixes of one another |
| LocaleTree.RoundTripIff | openclaw-vendored/scripts/control-ui-i18n.ts:1577-1580 | rebuilding and flattening gives the flat map back exactly for the keys a caller can check beforehand |
| LocaleTree.InheritedNameIsLost | openclaw-vendored/scripts/control-ui-i18n.ts:338-353 | a tree with the one text `constructor.a` is rebuilt empty |
| LocaleTree.NameSurvivesIff | openclaw-vendored/scripts/control-ui-i18n.ts:338-353 | a key below a name survives exactly if the name is none of the twelve that every plain object inherits |
| LocaleTree.SourceTreeIsRebuildable | openclaw-vendored/scripts/control-ui-i18n.ts:326-353 | the keys of any tree with non-empty, dot-free, not inherited names are such keys: no insertion overwrites a leaf |
| LocaleTree.SourceTreeRoundTrips | openclaw-vendored/scripts/control-ui-i18n.ts:326-353 | so every such tree survives flattening and rebuilding |
| TranslationMemory.LoadTranslationMemory | openclaw-vendored/scripts/control-ui-i18n.ts:483-502 | the loop loads the lines as specified |
| TranslationMemory.LastLineWins | openclaw-vendored/scripts/control-ui-i18n.ts:483-502 | of the usable lines with one cache key the last is loaded |
| TranslationMemory.LoadedFrom | openclaw-vendored/scripts/control-ui-i18n.ts:483-502 | every loaded entry is a line with that key and a text that is not blank |
| TranslationMemory.FirstLineRanks | openclaw-vendored/scripts/control-ui-i18n.ts:483-502 | the entries stand in the order in which usable lines first name their keys |
| TranslationMemory.LoadOfOrdered | openclaw-vendored/scripts/control-ui-i18n.ts:483-512 | a written memory loads back with every entry |
| TranslationMemory.RewriteIsStable | openclaw-vendored/scripts/control-ui-i18n.ts:504-512 | writing a loaded memory gives the same lines |
| TranslationMemory.BuildTranslationMemoryByTextHash | openclaw-vendored/scripts/control-ui-i18n.ts:514-526 | the loop builds the index by text |
| TranslationMemory.TextIndexIsExact | openclaw-vendored/scripts/control-ui-i18n.ts:514-526 | the index answers only with reusable entries of the text asked, and misses none |
| TranslationMemory.LastEntryServes | openclaw-vendored/scripts/control-ui-i18n.ts:514-526 | a text is served exactly when some entry can serve it, and then by the last such entry |
| SyncLocale.ReconcileKeys | openclaw-vendored/scripts/control-ui-i18n.ts:1445-1490 | the loop over the source keys equals the pass that `PendingIff`, `FinalTextIs` and `FinalEntryIs` describe |
| SyncLocale.StoreBatch | openclaw-vendored/scripts/control-ui-i18n.ts:1522-1541 | storing a batch equals its specification |
| SyncLocale.TranslatePending | openclaw-vendored/scripts/control-ui-i18n.ts:1492-1545 | all batches in turn, the first failure abandons the run, and the operations on clients are allowed ones that end with no client |
| SyncLocale.FillPending | openclaw-vendored/scripts/control-ui-i18n.ts:1554-1568 | the fallback loop equals its specification |
| SyncLocale.RunSync | openclaw-vendored/scripts/control-ui-i18n.ts:1423-1674 | the whole run equals the function that the theorems of `SyncProperties`, `SyncFixedPoint` and `SyncOrigins` are about |
| SyncProperties.ReconcilePlacesOnce | openclaw-vendored/scripts/control-ui-i18n.ts:1449-1490 | every source key is either given a text or pending, once |
| SyncProperties.AllBatchesTranslate | openclaw-vendored/scripts/control-ui-i18n.ts:1515-1542 | if the batches succeed every pending item has a text and a memory entry, and nothing else changed |
| SyncProperties.CompletedRunAccounts | openclaw-vendored/scripts/control-ui-i18n.ts:1445-1611 | a completed run has a text for exactly the source keys; fallback keys are distinct source keys, so the translated count is not negative; with a provider there are none |
| SyncFixedPoint.FinalPassSettles | openclaw-vendored/scripts/control-ui-i18n.ts:1445-1568 | a completed run, with or without a provider, leaves for every key a text that the next run will find |
| SyncFixedPoint.PassAgain | openclaw-vendored/scripts/control-ui-i18n.ts:1445-1568 | the next run finds the same texts and fallback keys with nothing pending |
| SyncFixedPoint.MetaAgain | openclaw-vendored/scripts/control-ui-i18n.ts:1582-1611 | metadata that says the same keeps its time stamp |
| SyncFixedPoint.SyncReachesFixedPoint | openclaw-vendored/scripts/control-ui-i18n.ts:1445-1663 | after any completed writing run, of a source whose keys can be rebuilt, a second run on its files has nothing pending, the same texts, memory and metadata, and reports no change |
| SyncOrigins.PendingIff | openclaw-vendored/scripts/control-ui-i18n.ts:1455-1490 | a key is put to pi exactly when no memory entry has its text and either there is a provider and it fell back to English before, or neither memory nor locale file has the key |
| SyncOrigins.FinalTextIs | openclaw-vendored/scripts/control-ui-i18n.ts:1445-1568 | which text every key ends up with, from what memory, locale file and earlier fallbacks hold of it; a refreshed key never keeps its old text, and a new text is one a reply gave to a prompt with the key |
| SyncOrigins.FallsBackIff | openclaw-vendored/scripts/control-ui-i18n.ts:1455-1605 | which keys are reported as fallback keys |
| SyncOrigins.FinalEntryIs | openclaw-vendored/scripts/control-ui-i18n.ts:1468-1541 | the memory entry of every key afterwards, member by member: kept, copied from the same text, newly recorded, or none |
| SyncOrigins.OtherEntriesStay | openclaw-vendored/scripts/control-ui-i18n.ts:1468-1541 | entries under any other cache key are carried along unchanged |
| SyncOrigins.MetaIs | openclaw-vendored/scripts/control-ui-i18n.ts:1582-1611 | every member of the metadata; the time stamp is kept exactly when all else is as before |
| SyncOrigins.WritesIff | openclaw-vendored/scripts/control-ui-i18n.ts:1613-1674 | when the files are written and with what; a memory file that would be empty is not created |
| SyncOrigins.SyncFailsFor | openclaw-vendored/scripts/control-ui-i18n.ts:1514-1574 | a run fails only with the error of a failed batch or for placeholders, and never returns texts the placeholder check rejects |
| SyncOrigins.ForceHasNoEffect | openclaw-vendored/scripts/control-ui-i18n.ts:1554-1642 | forcing changes neither texts, metadata, files nor what is reported |
| ArgumentScanner.QuoteScanState.BeginQuotedSection | openclaw-vendored/scripts/check-temp-path-guardrails.ts:46-52 | the quote state after an opening character |
| ArgumentScanner.QuoteScanState.ConsumeQuotedChar | openclaw-vendored/scripts/check-temp-path-guardrails.ts:54-70 | the quote state after a quoted character, escapes included |
| ArgumentScanner.FindMatchingParen | openclaw-vendored/scripts/check-temp-path-guardrails.ts:72-95 | the first index at which the unquoted depth is zero, or -1 if there is none |
| ArgumentScanner.SplitTopLevelArguments | openclaw-vendored/scripts/check-temp-path-guardrails.ts:97-162 | the loop returns the trimmed pieces of the specification, an empty last one dropped |
| ArgumentScanner.ScannersAgree | openclaw-vendored/scripts/check-temp-path-guardrails.ts:72-162 | while the depth is never negative both scanners see the same quotes and parentheses |
| ArgumentScanner.SplitterBalancesMatch | openclaw-vendored/scripts/check-temp-path-guardrails.ts:189-194 | on the slice the matcher delimits, the splitter ends unquoted at depth zero and never uses its clamp |
| ArgumentScanner.PiecesAreSelfContained | openclaw-vendored/scripts/check-temp-path-guardrails.ts:97-162 | every piece is one piece on its own, and all but the last close what they open |
| ArgumentScanner.SplitUndoesJoinIff | openclaw-vendored/scripts/check-temp-path-guardrails.ts:97-162 | splitting a comma-join gives the arguments back exactly when each is trimmed with no top-level comma, all but the last are closed, and the last is not empty |
| ArgumentGrammar.TextIsOnePiece | openclaw-vendored/scripts/check-temp-path-guardrails.ts:46-162 | any text of paired brackets and closed quotations, with escapes, and no comma outside them is one piece and leaves nothing open |
| ArgumentGrammar.ArgumentsComeBack | openclaw-vendored/scripts/check-temp-path-guardrails.ts:97-162 | so a list of such arguments survives the join and the split |
| ArgumentGrammar.GroupIsMatched | openclaw-vendored/scripts/check-temp-path-guardrails.ts:72-95 | the parenthesis found for an opening one is the one that closes its group |
| JpegDimensions.ReadJpegDimensions | openclaw-vendored/scripts/update-clawtributors.ts:546-590 | on any bytes the loop ends, every read is in bounds, and the result is the walk's, of which `ReadIff` says what it reports |
| JpegDimensions.WalkFindsFrame | openclaw-vendored/scripts/update-clawtributors.ts:546-590 | behind any stray bytes, standalone markers and non-frame segments the first frame header is found |
| JpegDimensions.WalkIsFramed | openclaw-vendored/scripts/update-clawtributors.ts:546-590 | whatever is reported stands in such a frame header |
| JpegDimensions.ReadIff | openclaw-vendored/scripts/update-clawtributors.ts:546-590 | dimensions are reported exactly for the streams that carry them: pieces and then a frame header, told by the marker codes of Table B.1 of ITU-T T.81 |
| JpegDimensions.ReadUndoesEncoding | openclaw-vendored/scripts/update-clawtributors.ts:546-590 | for an encoded stream with any frame marker, C0 to CF but C4, C8 and CC, the reader returns the header's height and width |
| JpegDimensions.ProgressiveIsRead | openclaw-vendored/scripts/update-clawtributors.ts:546-590 | a progressive picture, byte by byte |
| JpegDimensions.FillByteJumps | openclaw-vendored/scripts/update-clawtributors.ts:548-585 | from a fill byte the walk goes over as many bytes as the misread length says, or stops |
| JpegDimensions.FillByteIff | openclaw-vendored/scripts/update-clawtributors.ts:546-590 | behind any pieces and a fill byte, dimensions are reported exactly when a frame with them is found at the jump |
| JpegDimensions.FillByteHidesFrame | openclaw-vendored/scripts/update-clawtributors.ts:546-590 | behind any pieces, a fill byte before a frame header with at most 49152 bytes from that header on hides the dimensions |
| JpegDimensions.FillByteMisleads | openclaw-vendored/scripts/update-clawtributors.ts:546-590 | a frame header that stands at the jump is taken for the picture's own |
| JpegDimensions.WrongDimensions | openclaw-vendored/scripts/update-clawtributors.ts:546-590 | a stream of a 1 by 1 picture of which the reader says 2 by 3 |
| WorkerPool.RunKeepsInv | openclaw-vendored/scripts/update-clawtributors.ts:490-506 | the pool invariant over every interleaving |
| WorkerPool.EachIndexOnce | openclaw-vendored/scripts/update-clawtributors.ts:490-506 | indices are handed out as 0, 1, 2, ..., each once, to different workers, with no more calls in flight than workers |
| WorkerPool.ResultsAreSequential | openclaw-vendored/scripts/update-clawtributors.ts:490-506 | when all workers are done, slot i holds item i's result, or a call threw and a worker failed |
| WorkerPool.MapKeepsOrderAndLimit | openclaw-vendored/scripts/update-clawtributors.ts:490-506 | `mapConcurrent` never runs more calls than min(limit, n), or one, whatever throws; and returns the items' results in order if none does |
| WorkerPool.LimitIsReached | openclaw-vendored/scripts/update-clawtributors.ts:490-506 | and in some run that many calls are in flight at once |
| WorkerPool.ReaderKeepsOrder | openclaw-vendored/scripts/check-temp-path-guardrails.ts:223-263 | the reader's filtered output is the readable files in input order |
| WorkerPool.ReaderLimit | openclaw-vendored/scripts/check-temp-path-guardrails.ts:223-263 | up to 24 files, and never more, are read at once |
| WorkerPool.PoolTerminates | openclaw-vendored/scripts/check-temp-path-guardrails.ts:223-263 | every run ends and is never stuck before all workers are done |
| WorkerPool.Pool.TakeIndex | openclaw-vendored/scripts/update-clawtributors.ts:498-500 | the machine's step that hands out the next index |
| WorkerPool.Pool.CompleteItem | openclaw-vendored/scripts/update-clawtributors.ts:501-501 | the machine's step that stores a result |
| CommandSupervisor.HistoryInv | openclaw-vendored/scripts/openclaw-cross-os-release-checks.ts:3342-3477 | what the state says about the history, in every order of events |
| CommandSupervisor.SettlesAsDecided | openclaw-vendored/scripts/openclaw-cross-os-release-checks.ts:3342-3477 | the promise settles at most once, exactly as the first deciding event says |
| CommandSupervisor.ResolvesOnlyInTime | openclaw-vendored/scripts/openclaw-cross-os-release-checks.ts:3452-3475 | it resolves only if the child closed before any timeout, with exit code zero when that is checked |
| CommandSupervisor.TimersAfterSettling | openclaw-vendored/scripts/openclaw-cross-os-release-checks.ts:3362-3477 | after settling a timer is live exactly in the stray-wait case |
| CommandSupervisor.StrayWaitHappens | openclaw-vendored/scripts/openclaw-cross-os-release-checks.ts:3403-3421 | a history that ends in the stray-wait case |
| CommandSupervisor.StrayWaitChangesNothing | openclaw-vendored/scripts/openclaw-cross-os-release-checks.ts:3374-3421 | a stray wait that fires changes nothing but itself |
| CommandSupervisor.TimeoutAlwaysSettles | openclaw-vendored/scripts/openclaw-cross-os-release-checks.ts:3403-3421 | once the timeout has fired, the promise is settled or the kill wait can settle it |
| CommandSupervisor.Command.OnTimeout | openclaw-vendored/scripts/openclaw-cross-os-release-checks.ts:3403-3421 | the callback is the machine's timeout step |
| CommandSupervisor.Command.OnClose | openclaw-vendored/scripts/openclaw-cross-os-release-checks.ts:3452-3475 | the callback is the machine's close step |
| CommandSupervisor.ExitWait.constructor | openclaw-vendored/scripts/openclaw-cross-os-release-checks.ts:3152-3185 | a child that has exited is answered for at once; otherwise listeners are on and the timer is armed for a positive timeout |
| CommandSupervisor.ExitWait.Deliver | openclaw-vendored/scripts/openclaw-cross-os-release-checks.ts:3157-3184 | the first exit, close, error or timeout answers; nothing stays armed or listening after it |
| SparkleBuild.MatchIff | openclaw-vendored/scripts/sparkle-build.ts:12-22 | one pass over the text finds the pattern's reading exactly when there is one, and never a second |
| SparkleBuild.ValueOfConcat | openclaw-vendored/scripts/sparkle-build.ts:38-52 | gluing digits on the right shifts the left part by as many places |
| SparkleBuild.FloorsIff | openclaw-vendored/scripts/sparkle-build.ts:14-54 | floors exist exactly for calendar versions, and the glued digits are year, month, day and lane in decimal places |
| SparkleBuild.FloorsEmbedOrder | openclaw-vendored/scripts/sparkle-build.ts:38-53 | comparing lane floors is comparing year, month, day, lane |
| SparkleBuild.SchemesApart | openclaw-vendored/scripts/sparkle-build.ts:38-53 | legacy floors are below 10^9; lane floors reach it exactly for years of at least 1000 |
| SparkleBuild.BuildsRankVersions | openclaw-vendored/scripts/sparkle-build.ts:56-58 | canonical builds of two versions compare as their dates and lanes do |
| SparkleBuild.LanesWithinADay | openclaw-vendored/scripts/sparkle-build.ts:41-50 | plain release last, unnumbered suffix at lane 1, numbers rank as themselves and tie from 89 on |
| SparkleBuild.NumberedLane | openclaw-vendored/scripts/sparkle-build.ts:41-50 | the number at the end of a suffix is its lane, up to 89, and lane 1 goes to a suffix without one |
| SparkleBuild.BetaBuild | openclaw-vendored/scripts/sparkle-build.ts:12-58 | one version and its build number, digit by digit |
| Appcast.CollectAppcastSparkleVersionErrors | openclaw-vendored/scripts/release-check.ts:607-664 | the loops report exactly the specified problems in order |
| Appcast.TagsReportedIff | openclaw-vendored/scripts/release-check.ts:617-629 | which items are reported for a missing or a bad number |
| Appcast.CalverItemsIff | openclaw-vendored/scripts/release-check.ts:617-640 | which items are checked against the floors, and with what number and floors |
| Appcast.AdoptionIs | openclaw-vendored/scripts/release-check.ts:642-649 | the adoption date is 20260227 or the earliest date of an item of at least 10^9 before it |
| Appcast.FloorsReportedIff | openclaw-vendored/scripts/release-check.ts:651-661 | which numbers are reported as too low, and against which floor |
| Appcast.CleanIff | openclaw-vendored/scripts/release-check.ts:607-664 | no problem is reported exactly when there are items, all are numbered, and one cutover date not after 20260227 separates old numbers from lane numbers |
| Appcast.LaterSchemeIsLater | openclaw-vendored/scripts/release-check.ts:640-664 | in a clean feed every build from the cutover on, dated in a year of four digits, is at least 10^9 and so exceeds every build before it |
| Appcast.DateTestDecides | openclaw-vendored/scripts/release-check.ts:650-652 | the test on the build number is implied by the date test |
| Appcast.CanonicalReleaseIff | openclaw-vendored/scripts/release-check.ts:607-664 | adding a release with its canonical build keeps a clean feed clean exactly when no present item it brings into the lane period is below its lane floor |
| Appcast.OrderIsIrrelevant | openclaw-vendored/scripts/release-check.ts:607-664 | the order of the items does not decide whether the feed is clean |
| StableJson.StableIff | openclaw-vendored/scripts/protocol-gen-swift.ts:89-102 | two values have the same canonical form exactly when they are equal up to property order at every depth |
| StableJson.StableIsSame | openclaw-vendored/scripts/protocol-gen-swift.ts:89-102 | the canonical form is the value itself up to property order |
| StableJson.StableTwice | openclaw-vendored/scripts/protocol-gen-swift.ts:89-102 | and is its own canonical form |
| StableJson.StableOrder | openclaw-vendored/scripts/protocol-gen-swift.ts:89-102 | its keys stand in one order: array indices by value, then the others letter by letter |
| StableJson.IndexIff | openclaw-vendored/scripts/protocol-gen-swift.ts:89-102 | array indices are the decimals of the numbers below 2^32 - 1 |
| SchemaRegistry.Registry.RegisterNamedSchema | openclaw-vendored/scripts/protocol-gen-swift.ts:108-120 | after any registrations the maps hold exactly: each object's last name, the signatures registered once with their name, and those registered more than once |
| SchemaRegistry.LastNameCounts | openclaw-vendored/scripts/protocol-gen-swift.ts:108-120 | an object registered several times has its last name |
| SchemaRegistry.Registry.NamedSchema | openclaw-vendored/scripts/protocol-gen-swift.ts:122-127 | the lookup answers from the history of registrations alone |
| SchemaRegistry.OrderOfRegistrationIsIrrelevant | openclaw-vendored/scripts/protocol-gen-swift.ts:108-120 | the named and the duplicate signatures do not depend on the order of registration |
| SchemaRegistry.FallbackIff | openclaw-vendored/scripts/protocol-gen-swift.ts:104-127 | an unregistered schema borrows a name exactly when one registration, and no second, equals it up to property order |
| BlockLines.FailsIff | openclaw-vendored/scripts/sync-moonshot-docs.ts:21-28 | which marker is reported missing, and when |
| BlockLines.RestIsUntouched | openclaw-vendored/scripts/sync-moonshot-docs.ts:30-50 | text up to the marker line and after the end marker's line stays; only a final newline is dropped |
| BlockLines.SecondWriteReplacesIff | openclaw-vendored/scripts/sync-moonshot-docs.ts:15-51 | a second write replaces the first exactly when the end marker shows up in no line above its own |
| BlockLines.RewriteIsStableIff | openclaw-vendored/scripts/sync-moonshot-docs.ts:15-51 | writing the same lines again changes nothing under the same condition and no other |
| BlockLines.WriteThenRead | openclaw-vendored/scripts/sync-moonshot-docs.ts:15-51 | what is written between clear markers is what stands there |
| ProcessTree.BuildTables | openclaw-vendored/scripts/bench-gateway-startup.ts:636-653 | the tables hold each parent's children and each process's last CPU time |
| ProcessTree.LastLineCounts | openclaw-vendored/scripts/bench-gateway-startup.ts:636-653 | of several lines for a process the last gives its CPU time |
| ProcessTree.ReadProcessTreeCpuMs | openclaw-vendored/scripts/bench-gateway-startup.ts:624-673 | nothing without a listed root; else the walk ends and gives the sum over the reachable non-zero processes, each once, for any table |
| ProcessTree.SeenIsTree | openclaw-vendored/scripts/bench-gateway-startup.ts:658-672 | a set with the root, closed under children and with nothing unreachable, is the tree |
| ProcessTree.LineOrderIsIrrelevant | openclaw-vendored/scripts/bench-gateway-startup.ts:636-673 | when each process is listed once the order of the lines does not matter |
| LabelBatches.FetchOpenLabelItemBatches | openclaw-vendored/scripts/label-open-issues.ts:426-486 | for any replies and limit: which batches are yielded, whether the end is reached, and from where each page was asked for |
| LabelBatches.ReadToTheEnd | openclaw-vendored/scripts/label-open-issues.ts:426-486 | pages are read on while they announce another; a failure, and only that, keeps the end from being reached |
| LabelBatches.LimitTakesFirst | openclaw-vendored/scripts/label-open-issues.ts:450-485 | a limit takes the first items, and to reach it is to succeed |
| LabelBatches.BatchesAreTheItems | openclaw-vendored/scripts/label-open-issues.ts:450-485 | batches concatenate to the first min(limit, available) items in page order; a failure loses only the unfinished batch |
| LabelBatches.BatchesCount | openclaw-vendored/scripts/label-open-issues.ts:459-485 | numbered from one, all but the last of 500 items, none empty, with consecutive running counts |
| LabelBatches.OnlyReadPagesMatter | openclaw-vendored/scripts/label-open-issues.ts:441-455 | once the limit is met no further reply decides anything |
| LabelCheckpoints.LoadUndoesSave | openclaw-vendored/scripts/label-open-issues.ts:268-310 | a saved snapshot loads as the same two sets |
| LabelCheckpoints.LoadStateIff | openclaw-vendored/scripts/label-open-issues.ts:268-297 | exactly the numbers of the two lists are loaded |
| LabelCheckpoints.RunKeepsInv | openclaw-vendored/scripts/label-open-issues.ts:703-860 | over all crashes, restarts and torn saves, the file knows every item of a batch saved since the last torn save |
| LabelCheckpoints.CheckpointedIff | openclaw-vendored/scripts/label-open-issues.ts:703-860 | which items those are, read off the events |
| LabelCheckpoints.NeverClassifiedAgain | openclaw-vendored/scripts/label-open-issues.ts:733-860 | in every history none of them is put to the model again |
| LabelCheckpoints.TornSaveForgets | openclaw-vendored/scripts/label-open-issues.ts:299-302 | after a torn save the next run puts any issue to the model again |
| LabelCheckpoints.TornSaveHappens | openclaw-vendored/scripts/label-open-issues.ts:299-302 | a history in which a checkpointed issue is so forgotten |
| LabelCheckpoints.Labeler.LabelBatch | openclaw-vendored/scripts/label-open-issues.ts:733-790 | the loop over one batch is the machine's steps for that batch, save included |
| LabelCheckpoints.BatchIs | openclaw-vendored/scripts/label-open-issues.ts:733-790 | a whole batch: what is processed, what is put to the model and in which order, and when the file is rewritten |
| LabelCheckpoints.ToSorted | openclaw-vendored/scripts/label-open-issues.ts:304-310 | the snapshot lists each number once, ascending |

## Left out

- LocaleTree.SetNestedValue: trees are values, not objects shared in a heap. Integer-like property names, which JavaScript lists first, keep their insertion order here, and what a write through an inherited name does to the shared prototype is not followed.
- SyncOrigins.FinalTextIs: assumes that no two source keys share a cache key, as SHA-256 makes practically sure.
- SyncFixedPoint.SyncReachesFixedPoint: assumes that what a run writes reads back and that no two source keys share a cache key; the texts of the files, SHA-256, the formatter and its repair of string literals are parameters.
- SyncLocale.RunSync: a placeholder mismatch is a yes-or-no parameter; which placeholders a text has is not modelled.
- TranslationBatches.PayloadSize: strings are sequences of Unicode scalar values here and of UTF-16 code units in JavaScript, so characters beyond U+FFFF count once instead of twice; the order of strings in `StableJson.StableOrder` is by scalar values for the same reason.
- TranslateBatch.TranslateBatch: the waiting time between attempts and the progress messages are not modelled.
- Session.AnswersNeverCross: rests on pi's promise to end a request at most once and only after it was sent.
- JpegDimensions.ReadUndoesEncoding: streams with fill bytes are not among those encoded; `FillByteIff` says what the reader makes of them.
- CommandSupervisor.SettlesAsDecided: the log file and the text of the error messages are not modelled; a kill that fails is reported synchronously or as a later error event.
- SparkleBuild.FloorsIff: build numbers are exact integers. Feed numbers above 2^53 are rounded by JavaScript, which changes no comparison here because every floor is below 2^53.
- Appcast.CollectAppcastSparkleVersionErrors: items come with their tags already cut out of the XML.
- StableJson.StableIff: values are JSON data with finite doubles as numbers; `undefined`, functions, symbol keys, NaN and negative zero are not in them.
- SchemaRegistry.FallbackIff: `JSON.stringify` is a parameter assumed to tell canonical values apart.
- BlockLines.WriteThenRead: the script has no reader; the one here finds the block as the writer does and takes the lines between the markers without the indent.
- ProcessTree.ReadProcessTreeCpuMs: takes the parsed lines of `ps`; how a line and its CPU time are parsed is not modelled.
- LabelBatches.FetchOpenLabelItemBatches: the page's total count only feeds log lines and is left out, as are titles and bodies.
- LabelCheckpoints.NeverClassifiedAgain: an item listed twice within one batch is filtered before the batch starts and is put to the model twice; the property is about checkpointed batches. Which labels are added is not modelled.
- Process spawning, npm, gh and git calls, HTTP, console output and argument parsing appear as inputs and events only.
- The raw-copy scanner, the README wall rewriter, OTLP decoding, import-cycle analysis, benchmark statistics, version-field syncing and the SaintAGI app itself are separate and not modelled.
