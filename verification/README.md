# Verified models of the code factory

Five parts of the repository carry properties that no finite set of runs can settle. Each is
modelled here in Dafny, branch by branch, and what it is for is proved for every input, every
run or every reachable state.

1. **AST normaliser** (`harness/ast_enforcer.py`). A Python-like language with imports, flat
   functions, assignment, augmented assignment, assignment expressions, `if`, `while`,
   `break`, `continue`, `return`, calls and attributes (`PySyntax.dfy`) has an interpreter
   with fuel, an outside world and a history of calls to it (`PyInterp.dfy`). The four
   passes (`Normalizer.dfy`) are proved to number the right names (`NormalizerNames.dfy`),
   told from the statements that bind them (`NormalizerKept.dfy`), to sort imports without
   harm exactly when stated (`NormalizerImports.dfy`), to keep the meaning of functions
   (`NormalizerMeaning.dfy`) and modules (`NormalizerModule.dfy`), to yield a canonical form
   of functions (`NormalizerCanonical.dfy`) and modules (`NormalizerEquivalence.dfy`), told
   statement by statement (`NormalizerPasses.dfy`), and to be idempotent exactly when stated
   (`NormalizerIdempotent.dfy`).
2. **Truncation-repairing decoder** (`autocompiler/decode.py`). JSON as RFC 8259 and Python
   read it, over code points (`Json.dfy`, `JsonLocal.dfy`), the grammar of all texts of a
   value, in every spelling and spacing (`JsonText.dfy`), which the parser accepts exactly
   (`JsonGrammar.dfy`), the decoder (`Decode.dfy`), what it strips, splits and refuses in
   code points (`DecodeTexts.dfy`), the agreement of its bracket scanner with the parser
   (`DecodeScan.dfy`), what survives a cut (`DecodeTruncation.dfy`), fences
   (`DecodeFence.dfy`), line ends (`LineEnds.dfy`), a fence that the cut leaves open
   (`FenceTruncation.dfy`), and the round trip of whole texts (`JsonPrint.dfy`).
3. **Daemon** (`harness/autowork_daemon.py`, `harness/autowork_parallelism.py`,
   `harness/agy_pool.py`). The queue directory as an object changed in place, its passes
   proved against a description of the whole new state (`TaskQueue.dfy`), what each pass and
   move means for each task (`TaskPasses.dfy`), whole runs (`TaskLifecycle.dfy`), dependency
   death (`DependencyDeath.dfy`), the parallel check (`Parallelism.dfy`), admission
   (`Admission.dfy`), worker slots (`AgyPool.dfy`), the two together over whole iterations
   (`DispatchLoop.dfy`), planner backoff and dispatch breaker (`Backoff.dfy`), and the brief
   gate (`BriefGate.dfy`).
4. **Evolutionary loop** (`autocompiler/loop.py`, `selection.py`, `elo.py`,
   `population.py`), on mutable candidates and a mutable store (`Evolution.dfy`).
5. **Jail mount table** (`harness/agent_jail.py`), as the ordered list its builder grows
   (`JailMounts.dfy`), and what each path comes to in it (`JailResolution.dfy`).

Directory listings, clock readings, configuration, results of the injected seams and the
state of the host are parameters, so a statement holds for all of them. `Basics.dfy` holds
what several modules share.

## Where the code and its documentation differ

The model follows the code.

- The docstring of `normalize_ast` renames variables before it sorts imports; the code sorts
  first. Nothing promises idempotence, and it fails: `pass` between two imports keeps them
  apart only the first time (`PassBetweenImports`); `NormalizeTwiceIff` says exactly when it
  holds. Renaming captures a free name that looks generated (`CaptureChangesMeaning`), and
  sorting can change which of two imports of one name wins (`SortBindsIff` and
  `ImportModuleIff` are exact: a run is safe to sort if for each name the last statement
  that binds it and the last of those with the greatest key bind it alike). A run that is in
  key order already (`SortedIsSafe`) or that binds each shared name alike throughout
  (`AgreeingIsSafe`) is safe.
- A Markdown fence is taken off by splitting lines the way Python does, which puts a line
  feed for every line end. Carriage returns do no harm (`DecodeFeeds`, `FenceTransparent`),
  but a raw U+0085, U+2028 or U+2029, which may stand inside a JSON string, becomes a line
  feed there and the document no longer parses (`FenceBreaksSeparator`; `DocMatch` is exact
  for parsing, `FenceDecodesIff` for decoding). A repaired document always reports at
  least one dropped edit, and a repair that yields `null` counts as none.
- A worker's terminal move picks the first file whose name *ends with* its id, so it can
  carry off the file of another task (`SuffixCapturesTask`). `FailSafeIff` and
  `AcceptSafeIff` give the states in which it cannot, and `SafeNamesIff` the sets of names
  for which it never does, in any run.
- `_soonest_blocked_retry_deadline` is called a mirror of the retry pass but writes the
  budget out as 3; with any other budget it can disagree (`IndexNeedsDefaultBudget`).
- `_agy_pool_assign` says it yields nothing when the pool is full; `allocate_slot` raises
  there, and the exception ends the round (`SmallPoolRaises`; `SafeSizeIff` says which sizes
  never do).
- A failed planning rewrites the attempt marker without the note of the honoured
  modification time, so a brief dated in the future is never parked
  (`FutureSavingNeverParks`, `FutureSavingDefeatsBackoff`; `ParkedAfterFailureIff` is exact).
- The brief gate is called safe from deadlock; it is when no unfinished briefs depend on
  each other in a circle (`NoDeadlock`), any such circle holds all their tasks
  (`CircleDeadlocks`), and a gate where none of the unfinished briefs is free has one
  (`StuckHasCircle`; `DeadlockIff` is exact).

## Model

| member | source | states |
|---|---|---|
| Normalizer.SortImportRuns | harness/ast_enforcer.py:531-547 | the loop that gathers and sorts each run of imports yields the module with every contiguous run sorted stably and everything else in place |
| Normalizer.CollectLocals | harness/ast_enforcer.py:617-623 | the breadth-first walk collects the stored names that are neither parameters nor protected, in order of first store |
| Normalizer.BuildRenameMap | harness/ast_enforcer.py:624-626 | the numbering loop yields the map of the i-th collected name to `v<i>` |
| NormalizerIdempotent.StableSortIsStable | harness/ast_enforcer.py:524-547 | a sorted run is a permutation in key order that keeps statements of equal key in their old order |
| NormalizerPasses.SortImportsSorts | harness/ast_enforcer.py:516-547 | every longest run of imports is sorted by the first module each statement names, statements of one key in their old order, and nothing else moves |
| NormalizerImports.SortAlikeIff | harness/ast_enforcer.py:524-547 | two runs of imports sort alike exactly when, key by key, they have the same statements in the same order |
| NormalizerImports.SortBindsIff | harness/ast_enforcer.py:524-547 | sorting a run of imports, of any length, leaves what it binds as it was exactly when each name is bound alike by the last statement that binds it and by the last of those with the greatest key |
| NormalizerNames.VNameInjective | harness/ast_enforcer.py:624-626 | two generated names are equal exactly when their numbers are |
| NormalizerPasses.VNameIff | harness/ast_enforcer.py:624-626 | a generated name is `v` and its number in decimal without a leading zero |
| NormalizerNames.LocalOrderIs | harness/ast_enforcer.py:603-627 | exactly the stored names outside parameters and protected names are renamed, each once, to v0, v1, ... in order |
| NormalizerNames.WalkStores | harness/ast_enforcer.py:619-623 | the walk meets exactly the names the tree stores |
| NormalizerNames.WalkClean | harness/ast_enforcer.py:498-514 | removing redundant `pass` changes no store and no order of stores |
| NormalizerPasses.CleanIsTidy | harness/ast_enforcer.py:498-514 | at every depth a body of more than one statement keeps those that are no `pass`, in order, or a single `pass` |
| NormalizerNames.WalkRename | harness/ast_enforcer.py:635-639 | the walk of a renamed tree is the renamed walk |
| NormalizerKept.WalkLevels | harness/ast_enforcer.py:619-623 | the walk meets the stored names of a body level by level, each level from left to right |
| NormalizerKept.ProtectedIff | harness/ast_enforcer.py:572-595 | a name is protected exactly if a top-level statement defines a function of it, imports something under it, whole or up to its first dot, or assigns to it |
| NormalizerKept.KeptNames | harness/ast_enforcer.py:572-639 | a normalised function is its skeleton in which exactly the stored names that are neither parameters nor so bound are renamed, each to `v<n>` for the `n` such names stored before it |
| NormalizerMeaning.CaptureFreeIffInjective | harness/ast_enforcer.py:603-639 | the renamer merges no two names of a function exactly when no name it leaves alone equals a generated one in use |
| NormalizerMeaning.RenamingFaithful | harness/ast_enforcer.py:603-639 | without capture the renaming is one to one on the names of the function, and keeps parameters and which names are local |
| NormalizerMeaning.SimInvoke | harness/ast_enforcer.py:549-639 | calling a function before and after its renaming and cleaning gives the same result or error, globals and history, at every fuel |
| NormalizerModule.NormalizedFuns | harness/ast_enforcer.py:641-658 | the k-th function of the normal form is the k-th function normalised with the names the whole module protects |
| NormalizerPasses.NormalFormSteps | harness/ast_enforcer.py:641-658 | the normal form is the module without its docstring, its runs of imports sorted, each function without docstring and redundant `pass` and with its locals numbered, each other statement without redundant `pass`, and redundant `pass` gone last |
| NormalizerImports.RunSorted | harness/ast_enforcer.py:516-547 | sorting the import runs leaves the run of a module as it was when each run meets that condition |
| NormalizerModule.NormalizePreservesRun | harness/ast_enforcer.py:641-658 | without capture, and with import runs that meet that condition, running a module and its normal form ends alike: outcome, globals and outside calls, whatever the outside does |
| NormalizerModule.NormalizePreservesCalls | harness/ast_enforcer.py:641-658 | without capture every function computes the same value or the same error before and after normalising, whatever the module imports |
| NormalizerModule.EquivalentModulesCallAlike | harness/ast_enforcer.py:664-671 | the functions of two modules judged structurally equivalent compute alike when neither captures a name |
| NormalizerModule.EquivalentModulesMeanTheSame | harness/ast_enforcer.py:664-671 | two such modules whose import runs are safe to sort run alike |
| NormalizerModule.CaptureChangesMeaning | harness/ast_enforcer.py:603-639 | a function that stores `x` and reads a free `v0` fails before normalising and returns after it |
| NormalizerIdempotent.ImportModuleIff | harness/ast_enforcer.py:531-547 | normalising a module of imports, however many, keeps what it does exactly when the run is safe to sort |
| NormalizerCanonical.VariantsNormalizeAlike | harness/ast_enforcer.py:603-639 | functions that differ by an injective renaming of their locals have the same normal form |
| NormalizerCanonical.SkeletonDecides | harness/ast_enforcer.py:467-514 | functions that are the same but for docstring and redundant `pass`, at any depth, have the same normal form |
| NormalizerCanonical.EqualNormalFormsAreVariants | harness/ast_enforcer.py:603-639 | capture-free functions with the same normal form differ, docstring and `pass` aside, only by a one-to-one renaming of what the normaliser renames |
| NormalizerIdempotent.VariantModulesNormalizeAlike | harness/ast_enforcer.py:641-671 | modules that differ only by such renamings normalise to the same tree and are judged equivalent |
| NormalizerEquivalence.NormalFormIsRenamedSkeleton | harness/ast_enforcer.py:641-658 | the normal form of a module is its skeleton, docstrings and redundant `pass` gone and import runs sorted, with the locals of each function numbered |
| NormalizerEquivalence.VariantSkeletonsNormalizeAlike | harness/ast_enforcer.py:641-671 | modules that differ only in docstrings, redundant `pass`, the order of imports with different keys and the names of locals are judged equivalent |
| NormalizerEquivalence.EquivalentModulesAreVariants | harness/ast_enforcer.py:641-671 | conversely, capture-free modules judged equivalent bind the same names at the top level and have, statement by statement, the same skeleton up to a one-to-one renaming inside each function, in which a name moves only if it is, or becomes, a stored name that is neither a parameter nor so bound |
| NormalizerEquivalence.EquivalentIff | harness/ast_enforcer.py:641-671 | for capture-free modules in which no generated name in use is protected or a parameter, to be judged equivalent is exactly to have the same skeleton up to injective renamings of the stored names that are neither parameters nor bound at the top level |
| NormalizerCanonical.SecondOrder | harness/ast_enforcer.py:603-627 | a second pass collects the generated names that are neither protected nor parameters |
| NormalizerCanonical.FunStableIff | harness/ast_enforcer.py:603-639 | normalising a function twice equals once exactly when no bare string follows its docstring and the reserved generated names come last |
| NormalizerIdempotent.NormalizeTwiceIff | harness/ast_enforcer.py:641-658 | normalising twice equals once exactly for modules without a second bare string, with runs still sorted once `pass` is gone, and stable functions |
| NormalizerIdempotent.PassBetweenImports | harness/ast_enforcer.py:501-547 | `import b; pass; import a` normalises differently the second time |
| JsonLocal.ValueLocal | autocompiler/decode.py:79-82 | a parsed value depends only on the text up to its end and on a number being seen to stop there |
| JsonLocal.ValueEndsSolid | autocompiler/decode.py:74-76 | the last code point of a value is one that the repair never strips |
| JsonText.JoinedReads | autocompiler/decode.py:79-82 | code points spelled one after the other in any of the ways of section 7 of RFC 8259, closed by a quote, read as these code points with each escaped high surrogate joined to the escaped low one behind it |
| JsonText.TextReads | autocompiler/decode.py:79-82 | every text of a value parses to it, whatever spelling and whitespace it chooses |
| JsonGrammar.ParseDocIff | autocompiler/decode.py:79-82 | a text parses to a value exactly when it is one of the texts of that value in the grammar of RFC 8259 with NaN and the infinities |
| JsonGrammar.SpelledReadsIff | autocompiler/decode.py:79-82 | a quoted text of spelled code points reads as the string they spell exactly when no escape of a high surrogate stands before that of a low one |
| Decode.RepairPrefix | autocompiler/decode.py:46-78 | the character loop and the closing loop build the repair described by the scan of the prefix |
| Decode.RepairTruncated | autocompiler/decode.py:36-83 | the loop over shrinking prefixes returns the first repair that parses, or none |
| Decode.RepairCloses | autocompiler/decode.py:46-78 | rescanning a repair ends outside strings with every bracket closed exactly when the cut is not just after a backslash in a string |
| DecodeTexts.StripIs | autocompiler/decode.py:23-30 | stripping takes the white space of Python, 29 code points, from both ends and leaves none there |
| DecodeTexts.SplitLinesIs | autocompiler/decode.py:26-26 | splitting gives the lines between the eleven line ends of Python, a carriage return and a line feed being one |
| DecodeTexts.StripFenceIs | autocompiler/decode.py:21-30 | a stripped text that starts with three backticks loses that line and, if it starts so too, the last one, and the rest is joined with line feeds and stripped; any other is stripped |
| DecodeTexts.EmptyIff | autocompiler/decode.py:105-106 | a text is refused as empty exactly if it is nothing but white space |
| DecodeTexts.RepairIs | autocompiler/decode.py:36-83 | the repair is that of the longest prefix whose repair parses, and there is none exactly if no prefix has one |
| DecodeTexts.UnparseableIff | autocompiler/decode.py:109-114 | a text that is not empty is refused as unparseable exactly if, out of its fence, it is no JSON and has no repair but perhaps `null` |
| DecodeScan.ValueScan | autocompiler/decode.py:48-68 | scanning a whole JSON value leaves the scanner as it was |
| DecodeTruncation.PayloadLayout | autocompiler/decode.py:85-100 | every text that parses to reasoning and edits has its members where the truncation theorem looks for them |
| DecodeTruncation.TornDoc | autocompiler/decode.py:36-83 | whatever a torn payload that only closes parses to has the reasoning, the edits that end by the cut and at most one more |
| DecodeTruncation.ClosedParses | autocompiler/decode.py:69-82 | closed right after its last contained edit a payload parses |
| DecodeTruncation.TruncationKeepsFinishedEdits | autocompiler/decode.py:36-123 | any prefix past the bracket of the edits decodes, its edits begin with exactly the contained complete ones, and it adds at most one |
| DecodeTruncation.WholeSubmissionDecodes | autocompiler/decode.py:102-123 | the whole text decodes to its whole payload, not marked repaired |
| LineEnds.FenceKeepsIff | autocompiler/decode.py:21-30 | stripping a fence gives the document back exactly when its only line ends are line feeds |
| LineEnds.DocMatch | autocompiler/decode.py:21-30 | with a line feed for each line end a document parses to the same value, or to nothing if a U+0085, U+2028 or U+2029 stands in it; and a text whose line ends are carriage returns and line feeds does not become a document |
| LineEnds.DecodeFeeds | autocompiler/decode.py:21-123 | a text whose line ends are carriage returns and line feeds, or any text in a fence, decodes like the text with a line feed for each, repair included |
| LineEnds.FenceTransparent | autocompiler/decode.py:21-123 | a document whose line ends are carriage returns and line feeds, JSON or not, decodes alike with and without its fence |
| LineEnds.FenceDecodesIff | autocompiler/decode.py:21-123 | a submission accepted as it stands decodes alike in a fence exactly when no U+0085, U+2028 or U+2029 stands in it |
| DecodeFence.FenceBreaksSeparator | autocompiler/decode.py:21-30 | a JSON string with a raw U+2028 is no JSON once out of the fence |
| FenceTruncation.PayloadGuarded | autocompiler/decode.py:21-30 | in a payload text every backtick has a quote before it on its line, so none of its lines is taken for a fence, and no other control code ends a line |
| FenceTruncation.FencedPayloadIff | autocompiler/decode.py:21-123 | every payload text decodes alike with and without its fence exactly when no U+0085, U+2028 or U+2029 stands in it |
| FenceTruncation.FencedCutAlike | autocompiler/decode.py:21-123 | a payload cut past the bracket of the edits decodes alike bare and after an opening fence line, if none of the three stands before the cut |
| FenceTruncation.FencedCutKeeps | autocompiler/decode.py:21-123 | so such a payload in a fence that is never closed keeps its reasoning and finished edits and at most one more |
| FenceTruncation.HalfFenceRepairs | autocompiler/decode.py:21-123 | cut inside its closing fence, a payload without those three decodes to the whole payload, marked repaired |
| JsonPrint.ParsePrint | autocompiler/decode.py:109-110 | every printable JSON value parses back from its printed form |
| JsonPrint.PrintableIff | autocompiler/decode.py:109-110 | some text parses to a value exactly when all its numbers are numbers |
| JsonPrint.CompleteIff | autocompiler/decode.py:32-34 | an edit is complete exactly if the last `file` in it is a string that is not empty and the last `code` a string |
| JsonPrint.TextDecodesTo | autocompiler/decode.py:85-123 | a text of JSON decodes by its value alone: an object with a string as its last reasoning and a list as its last edits is accepted, unrepaired, with exactly its complete edits in order and the others counted as dropped; and what lacks them is refused with the reason |
| JsonPrint.RawDecodesTo | autocompiler/decode.py:102-123 | so does a text in a fence, and one that is repaired, which reports at least one dropped edit |
| JsonPrint.PayloadWritable | autocompiler/decode.py:85-100 | a payload can be written exactly when all numbers in its edits are numbers |
| JsonPrint.DecodeEncode | autocompiler/decode.py:102-123 | every text of a payload of complete edits, in any spelling and spacing, decodes to the payload, unrepaired and with nothing dropped |
| JsonPrint.EncodedSurvivesTruncation | autocompiler/decode.py:36-123 | cut anywhere past the bracket, every such text keeps its reasoning and finished edits and at most one more |
| TaskQueue.TaskDirectory.BumpSidecar | harness/autowork_daemon.py:458-481 | a block counts one attempt on top of the recorded ones and stamps outcome and time |
| TaskQueue.TaskDirectory.RetryBlocked | harness/autowork_daemon.py:970-1058 | the pass re-stages exactly the due tasks, marks exactly the spent ones and leaves the rest, in any listing order; it returns how many it re-staged |
| TaskQueue.TaskDirectory.SoonestDeadline | harness/autowork_daemon.py:911-968 | the loop returns the least deadline of the eligible tasks, or none if there are none |
| TaskQueue.TaskDirectory.ReclaimOrphans | harness/autowork_daemon.py:483-533 | the pass leaves no orphan claimed, blocks and charges each one not blocked before, and drops its marker |
| TaskQueue.TaskDirectory.BlockDependencyFailed | harness/autowork_daemon.py:1060-1126 | the pass blocks, exhausts and charges exactly the readable live tasks with a dependency exhausted when it began |
| TaskQueue.TaskDirectory.Claim | harness/orchestrator_worker.py:371-381 | a claim renames the live file if there is one |
| TaskQueue.TaskDirectory.Quarantine | harness/autowork_daemon.py:2569-2584 | a task that spins has its live file, if there is one, put aside |
| TaskQueue.TaskDirectory.MarkBlocked | harness/orchestrator.py:2035-2118 | the non-accept terminal moves the picked file to the blocked directory and charges the task |
| TaskQueue.TaskDirectory.MarkProcessed | harness/orchestrator.py:1947-1975 | the accept terminal moves the picked file to the processed directory |
| TaskPasses.RetriedIff | harness/autowork_daemon.py:970-1058 | the pass re-stages a blocked, unmarked task that is no sidecar exactly when its attempts are below one after one of the three final outcomes and below the budget otherwise, 300 s, an hour or a day by attempts have passed, and its name is free; it marks exactly those without a try left, and leaves everything else |
| TaskPasses.SoonestIff | harness/autowork_daemon.py:911-968 | the deadline is the least such time of the tasks with a try left, of one or three by their outcome, or none |
| TaskPasses.ReclaimedIff | harness/autowork_daemon.py:483-533 | for each task, what the reclaim pass does to its files and counters |
| TaskPasses.DependencyIff | harness/autowork_daemon.py:1060-1126 | for each task, what the dependency pass does to its files and counters |
| TaskPasses.PickIff | harness/orchestrator.py:2070-2076 | a worker's move picks a claimed file whose name ends with the task's, or failing that a live one, or none |
| TaskPasses.BlockedIff | harness/orchestrator.py:2058-2118 | for each task, what a failure does: the picked file is blocked as a record with its dependencies, one attempt is counted with outcome and time, and the marker of the running task goes |
| TaskPasses.ProcessedIff | harness/orchestrator.py:1947-1975 | for each task, what an acceptance does |
| TaskPasses.FinalFailureParks | harness/autowork_daemon.py:1013-1015 | over every run a task that failed with a final outcome is not re-staged before it is blocked with another one, whatever the budget |
| TaskPasses.RestagedAsPicked | harness/autowork_daemon.py:970-1058 | over every run a task that fails and is re-staged comes back with the dependencies of the file it was picked with |
| TaskLifecycle.NoTaskLost | harness/autowork_daemon.py:458-533 | over every run of tasks of which none is named with the end of another one's name, each known id stays queued, claimed, blocked, processed or quarantined |
| TaskLifecycle.SafeNamesIff | harness/orchestrator.py:2070-2076 | exactly the sets of names of which none ends with another lose no task in any state and run |
| TaskLifecycle.FailSafeIff | harness/orchestrator.py:2070-2076 | a failure loses no task, whichever file is listed first, exactly when no other task's only file has a claimed, or failing that a live, name that ends with its id |
| TaskLifecycle.AcceptSafeIff | harness/orchestrator.py:1952-1970 | the same for an acceptance |
| TaskLifecycle.SuffixCapturesTask | harness/orchestrator.py:2070-2076 | whenever one name ends with another, failing the shorter can carry off the only file of the longer |
| TaskLifecycle.AttemptsNeverDecrease | harness/autowork_daemon.py:458-481 | over every run attempts never decrease and exhausted markers stay |
| TaskLifecycle.ExhaustedStaysParked | harness/autowork_daemon.py:994-999 | over every run a task with an exhausted marker is never re-staged |
| TaskLifecycle.RestageBudget | harness/autowork_daemon.py:970-1058 | over every run a task never blocked before is re-staged at most one time less than the budget, when each block counts; in general attempts already counted come off and each uncounted block adds one |
| TaskLifecycle.RestagesApart | harness/autowork_daemon.py:1039-1047 | over every run with ordered clock readings the first re-staging comes at least 300 s after the start, the second at least an hour after the first and every later one at least a day after the one before |
| TaskLifecycle.OrphanComesBack | harness/autowork_daemon.py:483-533 | an orphaned task is live again after a reclaim and a retry pass one backoff later, unless its budget is spent |
| TaskLifecycle.IndexAgrees | harness/autowork_daemon.py:911-1058 | a pass at `t` re-stages something exactly when the soonest deadline is by `t` and not every task past its deadline collides; every other deadline left is later |
| TaskLifecycle.IndexAgreesWithoutCollisions | harness/autowork_daemon.py:911-1058 | without collisions index and scan agree outright |
| TaskLifecycle.IndexBrackets | harness/autowork_daemon.py:911-1058 | with clock readings between two times, the deadline decides at the first and excludes at the second |
| TaskLifecycle.IndexNeedsDefaultBudget | harness/autowork_daemon.py:958-960 | for every other budget there is a queue on which index and scan disagree |
| DependencyDeath.DeathIsLeastFixpoint | harness/autowork_daemon.py:1060-1126 | after as many passes as live files nothing changes any more, and exactly the tasks with a dependency path through live tasks to an exhausted one are blocked, exhausted and charged once |
| DependencyDeath.PassesEnd | harness/autowork_daemon.py:1060-1126 | each pass that is not the last blocks another task |
| DependencyDeath.CycleDies | harness/autowork_daemon.py:1060-1126 | two tasks in a cycle one of which depends on an exhausted task both die |
| Parallelism.PathsMeetIff | harness/autowork_parallelism.py:3-14 | two paths meet exactly when they denote a common string |
| Parallelism.OverlapIff | harness/autowork_parallelism.py:3-14 | two file lists overlap exactly when the sets they denote intersect |
| Parallelism.IndexIsLast | harness/autowork_parallelism.py:17 | the index holds the last record of each id |
| Parallelism.TransitiveDeps | harness/autowork_parallelism.py:16-33 | on every list of tasks the loop ends with exactly the ids reachable by one or more dependency edges, minus the start |
| Parallelism.CanRunParallel | harness/autowork_parallelism.py:35-61 | the check passes exactly when ids differ and, but for self-heal tasks, no isolated project is shared, files are known and disjoint, and neither depends on the other |
| Parallelism.ParallelSafeSymmetric | harness/autowork_parallelism.py:35-61 | the order of the two tasks does not matter |
| Admission.CollectDispatchable | harness/autowork_daemon.py:186-276 | the candidates are exactly the records that are not running, have all dependencies accepted and can run beside every running task |
| Admission.CandidatesIff | harness/autowork_daemon.py:186-276 | a record is a candidate exactly if its id is not running, its dependencies are all accepted, and it can run beside the last record of each running id, or, where there is none, one of the two is a self-heal task |
| Admission.PrioritizeIsStableSort | harness/autowork_daemon.py:278-298 | prioritising orders by rank and time, permutes, and keeps the order of equal keys |
| Admission.UrgentFirst | harness/autowork_daemon.py:278-298 | critical comes before high, high before medium, medium before low, low before unset, and older before newer at equal priority |
| Admission.Admit | harness/autowork_daemon.py:2155-2174 | the admission loop takes the positions of a greedy pass |
| Admission.GreedyUnique | harness/autowork_daemon.py:2155-2174 | those positions are determined by the candidates, the running tasks and the free slots |
| Admission.Decide | harness/autowork_daemon.py:2142-2176 | nothing is chosen when paused or full, and otherwise a greedy pass over the gated, prioritised candidates |
| Admission.AdmissionSound | harness/autowork_daemon.py:2142-2176 | at most the free slots are filled, in priority order, with accepted dependencies, pairwise and beside every running task safe in either order; if slots stay free every candidate left out conflicts with a running or earlier one |
| AgyPool.AllocateSlot | harness/agy_pool.py:66-99 | the lowest free slot, none for an empty pool, and an exception exactly when all are busy |
| AgyPool.BusySlots | harness/autowork_daemon.py:1136-1151 | the slots whose `.pid` file stands beside their `.slot` file |
| AgyPool.LaunchIs | harness/autowork_daemon.py:1153-1218 | a launch writes the lowest slot that no task with both files is in, and its `.pid` once the worker is up; without a free slot nothing changes |
| AgyPool.EndGoesOn | harness/autowork_daemon.py:1153-1218 | a run of launches, plain starts and exits goes on from where it ends |
| AgyPool.RoundGoesOn | harness/autowork_daemon.py:2560-2664 | a round goes on with each next task until an allocation raises |
| AgyPool.SlotsStayPrivate | harness/autowork_daemon.py:1153-1218 | over every run of launches, plain starts and exits no two live pooled workers hold the same slot |
| AgyPool.RoundKeepsPrivate | harness/autowork_daemon.py:2560-2664 | a round of different idle tasks, ended early or not by the exception, keeps slots private |
| AgyPool.AdmittedFindSlots | harness/autowork_daemon.py:1182-1198 | with at least as many slots as the cap, every pooled worker of an admitted round finds one |
| AgyPool.SmallPoolRaises | harness/agy_pool.py:97-99 | launching more workers than the pool has slots, from an empty directory, raises |
| AgyPool.SafeSizeIff | harness/agy_pool.py:66-99 | the sizes with which no admitted round raises are exactly those at least the cap and those that switch the pool off |
| DispatchLoop.ChosenAdmitted | harness/autowork_daemon.py:2142-2176 | what the admission decides are different tasks, none of them running, no more than the cap leaves free |
| DispatchLoop.IterationSafe | harness/autowork_daemon.py:2484-2664 | an iteration, from the listing of live ids through admission to dispatch, keeps slots private, and with a pool at least as large as the cap each pooled worker finds a slot |
| DispatchLoop.IterationsSafe | harness/autowork_daemon.py:2484-2664 | over every run of iterations no two live pooled workers share a slot, and no allocation raises while the pool is off or no smaller than the cap |
| Backoff.PlanMarker.RecentlyFailed | harness/autowork_daemon.py:1546-1601 | planning waits while the marker says so, and a resaved brief is let through once and noted |
| Backoff.PlanMarker.RecordFailure | harness/autowork_daemon.py:1905-1996 | a failure counts one attempt, stamps the time, keeps or sets determinism except on a timeout, and forgets the honoured saving |
| Backoff.TryIs | harness/autowork_daemon.py:1546-2000 | a consideration of a brief leaves the marker alone while it is parked, and else notes a new saving and records a planning that fails |
| Backoff.PlannerBackoff | harness/autowork_daemon.py:1546-2000 | the k-th failure of a brief not saved since its first, k at least 5, comes at least 3900 + 86400 (k - 5) s after it |
| Backoff.SavingsBuyOneTry | harness/autowork_daemon.py:1579-1587 | with savings in the past each one buys at most one planning ahead of its wait |
| Backoff.EarlyTriesApart | harness/autowork_daemon.py:1579-1587 | between two plannings ahead of their wait the brief is saved |
| Backoff.ParkedAfterFailureIff | harness/autowork_daemon.py:1573-1601 | after a failure a brief is parked exactly while its wait lasts, a day when the failure was deterministic and else by the count nothing, 300 s, an hour or a day, if it is not dated after the failure (or is dated zero) |
| Backoff.FutureSavingNeverParks | harness/autowork_daemon.py:1573-1587 | so a brief dated after its last failure is not parked, whatever the clock says |
| Backoff.FutureSavingDefeatsBackoff | harness/autowork_daemon.py:1546-2000 | over every run of failures before its date such a brief is planned every time |
| Backoff.Breaker.Dispatch | harness/autowork_daemon.py:2562-2585 | a dispatch is noted, old ones dropped, and the task launched unless ten stand in the window |
| Backoff.LaunchIff | harness/autowork_daemon.py:2562-2585 | a dispatch is launched exactly when at most eight came before it in its window; what was discarded makes no difference |
| Backoff.BreakerHolds | harness/autowork_daemon.py:2562-2585 | over every run with a clock that does not go back no task is launched more than nine times in a closed window of 300 s |
| BriefGate.GateOk | harness/autowork_daemon.py:2015-2141 | the gate passes exactly the tasks without a brief or whose brief's dependencies are each itself, accepted, dead or absent |
| BriefGate.ResolveIff | harness/autowork_daemon.py:2093-2113 | a name resolves exactly when a record has it under some spelling |
| BriefGate.NormIff | harness/autowork_daemon.py:2093-2113 | two names are alike exactly when they agree position by position, up to ASCII case and a hyphen for an underscore |
| BriefGate.ResolvesTo | harness/autowork_daemon.py:2093-2113 | a name stands for the last record called so, or else the last one called like the first name that is spelled alike |
| BriefGate.GateIff | harness/autowork_daemon.py:2015-2141 | a task is held exactly if the last record of the first brief that lists it has a dependency that is neither itself, nor stands for a brief with tasks of which none remains or all are exhausted, nor is spelled like no brief on record or on disk |
| BriefGate.PassSound | harness/autowork_daemon.py:2015-2141 | a pass implies each dependency is the brief itself, an accepted or dead record, or absent from records and disk under every spelling |
| BriefGate.NoDeadlock | harness/autowork_daemon.py:2015-2141 | without a circle of unfinished briefs, and with dependencies on planned briefs or none, while a brief is unfinished there is one whose tasks all pass |
| BriefGate.StuckHasCircle | harness/autowork_daemon.py:2015-2141 | so when no unfinished brief has all its tasks pass, some stand in a circle |
| BriefGate.HeldIff | harness/autowork_daemon.py:2015-2141 | with planned briefs a task waits exactly while its brief needs an unfinished one |
| BriefGate.CircleDeadlocks | harness/autowork_daemon.py:2015-2141 | in any circle of unfinished briefs no task passes |
| BriefGate.DeadlockIff | harness/autowork_daemon.py:2015-2141 | some unfinished brief has all its tasks pass unless every unfinished brief needs an unfinished one, and then no task of any passes |
| Evolution.ExpectationsComplement | autocompiler/elo.py:12-22 | the two expectations of a game add up to one, and between equals each is a half |
| Evolution.FavouriteIff | autocompiler/elo.py:12-22 | the expectation is above a half exactly for the player with the higher rating, if the power grows |
| Evolution.ExpectedOrder | autocompiler/elo.py:12-22 | it grows with the own rating and falls with the rival's |
| Evolution.Odds | autocompiler/elo.py:12-22 | the rival's expectation is the own one times the power of the rating difference over 400 |
| Evolution.UpdateElo | autocompiler/elo.py:24-37 | a game leaves the sum of the two ratings as it was |
| Evolution.WinnerGains | autocompiler/loop.py:190-196 | a winner gains and a loser loses, each less than 32, and both update formulas agree |
| Evolution.UpsetsPayMore | autocompiler/elo.py:24-37 | the same score brings more against a stronger rival: to beat one gains more, to lose to one costs less |
| Evolution.GainsByScore | autocompiler/loop.py:190-196 | a win between equals is worth 16, each part of a score its part of 32, the expected score nothing; and both update formulas agree |
| Evolution.TournamentRound | autocompiler/elo.py:39-60 | the two loops yield the ratings after each game in turn |
| Evolution.RoundConserves | autocompiler/elo.py:39-60 | a round changes the total only by the games of an id with itself, so it conserves it when every pair has two ids |
| Evolution.PUcbIsBest | autocompiler/selection.py:17-43 | the selected candidate is preferred to every other, and unseen if any is |
| Evolution.PUcbMaximises | autocompiler/selection.py:17-43 | it is the unseen candidate with the least id, and without one a candidate whose rating and bonus are greatest, the least id among equals |
| Basics.StrLeIff | autocompiler/selection.py:43-43 | ids are compared as strings: a prefix first, and else by the first code point that differs |
| Evolution.PopulationDB.Add | autocompiler/population.py:65-67 | adding replaces the record of an id in place or appends it |
| Evolution.PopulationDB.SelectParent | autocompiler/loop.py:116-136 | the loops pick the P-UCB parent for the total of the visits |
| Evolution.PopulationDB.Step | autocompiler/loop.py:49-71 | a step changes the stored objects as described: a visit, the ratings of parent and child, the child inserted unless pruned |
| Evolution.StepIs | autocompiler/loop.py:49-71 | a step with a fresh child counts one visit of the parent, gives parent and child the ratings of their game and stores the child last with the parent as its only one; a pruned child leaves the visit alone |
| Evolution.StepConserves | autocompiler/loop.py:49-71 | a step with a fresh, unseen child adds one visit, changes the ratings only by what an inserted child brings, and keeps ids distinct and parents stored |
| Evolution.RunConserves | autocompiler/loop.py:49-71 | the same over whole runs: visits grow by the number of steps, ratings by the starting ratings of the inserted children |
| Evolution.ExploresFirst | autocompiler/loop.py:116-136 | no seen parent is picked while an unseen candidate is stored, and among seen ones the parent's rating with its bonus is the greatest |
| Evolution.LineageAcyclic | autocompiler/loop.py:49-71 | along a chain of descent positions grow, so lineage has no circle |
| JailMounts.BuildMounts | harness/agent_jail.py:123-477 | the builder yields the mounts of its sections in order, or fails without bwrap |
| JailMounts.EffectiveConcat | harness/agent_jail.py:206-477 | a later mount that covers a path hides the earlier ones |
| JailResolution.TableDecides | harness/agent_jail.py:206-477 | for every host, arguments and path, the mount that decides the path in the table is the one found from the path: its place in the work, state, repository, runtime, home, node, allowed and system directories |
| JailResolution.BindsAreThemselves | harness/agent_jail.py:206-477 | a path under a bind is the host path of the same name, but for the null device over a setting, the throw-away configuration file and the bus of the proxy |
| JailResolution.ClaudeJsonIsCopy | harness/agent_jail.py:310-317 | with credentials, and no later mount over it, `.claude.json` in the home is the throw-away copy of the work directory, or the operator's own read-only when there is no copy |
| JailResolution.ClaudeJsonUnwritten | harness/agent_jail.py:310-317 | so no writable path of the jail is the operator's own `.claude.json` |
| JailResolution.BusIsProxied | harness/agent_jail.py:396-408 | with a proxy the bus of the runtime directory is the proxy's socket |
| JailResolution.HostBusUnreached | harness/agent_jail.py:396-408 | so no bound path of the jail is the host's own bus |
| JailMounts.RepositoryReadOnly | harness/agent_jail.py:416-474 | a path at or below the repository is writable exactly below the work directory, the session directories or a re-bound directory of a home inside it, and else resolves to a read-only bind |
| JailMounts.SettingsReadOnly | harness/agent_jail.py:351-362 | with its parent on the host nothing at or below a protected setting is writable but in what is carved out later, whether it exists or not |
| JailMounts.MemoryReadOnly | harness/agent_jail.py:322-331 | the same for the memory of each project |
| JailMounts.ExecutePathWritable | harness/agent_jail.py:206-477 | without credentials all that is writable lies below an allowed path, the runtime directory, a session directory or the work directory |

## Left out

- In-place change of the syntax tree: the transformers rewrite nodes; the model computes trees, so aliasing between nodes is not captured.
- Classes, nested functions, `global` and `nonlocal`, local imports, exception names, comprehensions, `for`, `with`, `try` and targets other than names: the renamer does not treat them as plain names, and the theorems are stated for flat functions.
- Defaults, annotations and decorators: the renamer would touch them although they are evaluated outside the function.
- Import failures, side effects of imports and `from m import *`; an unbound-local error carries no name in the model.
- Parsing and unparsing of Python: trees are compared rather than printed source.
- The values of JSON numbers: their text is kept; Python's limit on the digits of an integer and its recursion limit are not modelled.
- Decode.DecodeSubmission: takes a string; the source also rejects a value that is not a string and turns any unforeseen exception into a rejection.
- Task files whose top level is not a record, dependencies that are not lists, identifiers with glob characters, and blocked ids that end in `.retry`.
- TaskQueue.TaskDirectory.RetryBlocked: does not model the escalation to an automatic brief, telemetry, or a rename or write that fails.
- A sidecar whose fields have the wrong type: it is either absent or reads as attempts, outcome and time.
- `time.time` going back: runs that speak of time take clock readings that do not.
- Parallelism.TransitiveDeps: dependency lists hold strings; other entries are not modelled.
- Canonical paths, project directories and the set of isolated projects beyond the one listed are taken as given.
- Admission.CollectDispatchable: the accepted ids and the records that read are parameters; how status and ledger files are read is not modelled.
- DispatchLoop.IterationSafe: helper processes that are not tasks are taken to have process files under names that no task has, and two iterations never overlap.
- AgyPool.AllocateSlot: the branch with lock files and the fallback to a shared home depend on the operating system and are not modelled.
- BriefGate.GateOk: models the gate with a state directory, the only way the daemon calls it; lower case is that of ASCII.
- Backoff.PlanMarker.RecentlyFailed: a marker that does not read as a record of the right types counts as absent.
- Backoff.Breaker.Dispatch: the timestamps live in the process; a restart forgets them.
- Evolution.PopulationDB.Step: the operator returns an object that is not stored; saving to disk and the fitness vector but for its prune flag are not modelled. Reals stand for floats, and the power of ten and the exploration bonus are functions of which only what is stated is used.
- JailMounts.BuildMounts: only mounts are kept, not environment variables, namespaces, the working directory and the command; a listing that fails half-way is not modelled.
- The planner, the orchestrator beyond its two terminal moves, the self-heal harvester, telemetry, git and the D-Bus proxy: input and output, or only easier members.
- `validate_code`, the fitness, vacuity, containment, crossover and determinism modules: lists of independent branches that would add only easier members.
