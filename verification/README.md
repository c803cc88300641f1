# Verification of the maintenance scripts

A Dafny model of the repository's scripts that carry an algorithm or a protocol, and proofs of what they
promise. `dafny verify dfyconfig.toml` checks all of it.

- **Import cycles** (`ImportGraph`, `LowLinks`, `PoppedLog`, `TarjanScc`, `CycleWitness`, `CycleReport`,
  `CanonicalReport`). Tarjan's algorithm as both cycle scripts write it, over shared mutable maps, a stack and a
  set; the order in which it finds components; the depth-first search for a printed cycle; the report, the exit
  code, and exactly when the report is canonical. `LowLinks` holds the invariant of the low links on its own, over
  abstract `edge` and `reach` relations.
- **Control UI translations** (`TranslationBatches`, `TranslateBatch`, `TranslateOutcomes`, `PiRpcClient`,
  `PiRpcProgress`, `TranslationTree`, `FlatTranslations`, `TranslationMemory`, `MemoryFile`, `SyncLocale`,
  `SyncFixpoint`, `SyncProviders`, `SyncMeaning`, `SyncRun`). Batching, retrying and splitting, the RPC client as a
  state machine, flattening and rebuilding, the memory file, and the merge. The proofs chain: the round trip of dotted
  keys, the fixpoint of the map, the fixpoint of the metadata, a clean check. `SyncLocale` says what a run computes
  and what the next one loads, `SyncFixpoint` and `SyncProviders` prove when the check after it is clean, on the same
  machine or on one with another provider or none, `SyncMeaning` tells what is in the files, and `SyncRun` has the
  loops of the run and ties them to it.
- **Guardrail scanners and worker pools** (`GuardrailScanner`, `GuardrailArguments`, `WorkerPools`). A pool is a state
  machine whose schedule says which call settles next; each class method is one stretch of a worker between two
  awaits.
- **Smaller components** (`JpegWalker`, `Utf16Slice`, `Base64Url`, `Base64Layout`, `ImportClosure`, `BlockLines`,
  `Appcast`).
- `Options`, `Sorting`, `StableSorting`, `JsText` and `JsMap` are the pieces of JavaScript the scripts lean on:
  optional values, the stable `toSorted`, `trim`, `split` and `join`, and `Map` in insertion order.

Conventions. `leq(a, b)` stands for "`a.localeCompare(b)` is not positive"; it is any total preorder, and a lemma
that needs more says so, because `localeCompare` ties some different strings. The translator, the child process
and the order of awaits are arbitrary. Clock readings, hashes, the formatter, JSON and file contents are
parameters of the runs.

Where the code and its evident intent part ways, the model follows the code:

- The report of the cycle scripts is sorted to be canonical. It depends on the order of the graph's keys or imports
  exactly if two files on one cycle have names that `localeCompare` ties, or if two components of one size with tied
  signatures do not reach each other (`CanonicalReport.CanonicalExactly`). Signatures join file names with newlines,
  so names holding newlines can tie (`CanonicalReport.NewlinesTie` has two such graphs).
- `agent_end` lines are not matched by id (`PiRpcClient.StrayEndMisattributed`).
- Without a provider, the check after a `sync --write` reports a change exactly if the write met a new key placed
  before a kept fallback that `localeCompare` ties with it (`SyncFixpoint.CleanAfterWrite`;
  `SyncFixpoint.NewKeyBeforeTiedFallback` has such files): a run lists kept fallbacks before new ones.
- `base64UrlDecode` computes the padding from a length that counts the white space `atob` drops
  (`Base64Url.SpaceTolerated`).
- From the adoption of lane-coded build numbers on, releases with a year before 1000 need not be lane-coded
  (`Appcast.LanesStayFrom`).
- The batching loop counts the base cost of two characters once for every item
  (`TranslationBatches.BatchLoad`), not once for the batch.
- `resolveCommonAncestor` stops one directory short when a path lies strictly above the first one and no path
  branches off there: the relative path is then `..`, which does not start with `../`
  (`ImportClosure.AncestorCovers` gives the exact family).
- The JPEG walk does not skip fill bytes (`JpegWalker.FillByteHidesHeader`).
- Replacing a block is idempotent exactly when the end marker does not occur earlier in the block
  (`BlockLines.SecondRun`).

## Model

| member | source | states |
|---|---|---|
| JsText.SpaceTable | skillset-main/scripts/control-ui-i18n.ts:948-948 | `trim` and blank texts go by the 25 characters JavaScript takes for white space |
| JsText.TrimMeans | skillset-main/scripts/control-ui-i18n.ts:948-948 | `trim` removes white space at either end, and all of it |
| JsMap.SetInPlace | skillset-main/scripts/control-ui-i18n.ts:296-311 | setting a key that is there keeps its place, and everything else |
| ImportGraph.CyclicTest | skillset-main/scripts/check-import-cycles.ts:194-196 | the test after popping, "more than one file, or a self import", holds of a strongly connected component exactly when each of its files lies on a cycle |
| ImportGraph.SameCyclicScc | skillset-main/scripts/check-import-cycles.ts:155-208 | the cyclic components depend only on which files there are and which import which |
| LowLinks.EnterVisit | skillset-main/scripts/check-import-cycles.ts:165-170 | numbering and stacking a new file keeps the low-link invariant (every stacked file reaches a visit in progress) and starts a scan of its imports |
| LowLinks.FoldVisited | skillset-main/scripts/check-import-cycles.ts:173-175 | taking the minimum with a visited import's low link keeps the scan's invariant |
| LowLinks.FoldStacked | skillset-main/scripts/check-import-cycles.ts:176-178 | the same for the number of an import still on the stack |
| LowLinks.FoldClosed | skillset-main/scripts/check-import-cycles.ts:172-179 | an import that is off the stack may be passed over |
| LowLinks.LeaveStacked | skillset-main/scripts/check-import-cycles.ts:181-183 | a visit whose low link is below its own number leaves its files on the stack, each still reaching an older visit in progress |
| LowLinks.TopIsScc | skillset-main/scripts/check-import-cycles.ts:181-193 | when the low link is the file's own number, what the visit added to the stack is a maximal strongly connected set |
| LowLinks.NothingStacked | skillset-main/scripts/check-import-cycles.ts:199-203 | between two keys of the outer loop the stack is empty |
| TarjanScc.SccSearch.Visit | skillset-main/scripts/check-import-cycles.ts:165-197 | one call of the closure: it keeps the invariant, adds only to the maps, restores the caller's stack below its own part and logs only new whole components; it fails only on a file with a falsy name |
| TarjanScc.SccSearch.PopDown | skillset-main/scripts/check-import-cycles.ts:184-193 | the do-while pops exactly the files above the caller's stack, each once, down to the root; without a falsy name the underflow error cannot occur |
| TarjanScc.SccSearch.Close | skillset-main/scripts/check-import-cycles.ts:184-196 | a finished root is popped and reported exactly if it carries a cycle |
| PoppedLog.ReportListsCycles | skillset-main/scripts/check-import-cycles.ts:184-196 | reporting each popped component that passes the test lists exactly the cyclic ones |
| PoppedLog.LoggedInOrder | skillset-main/scripts/check-import-cycles.ts:172-196 | no component is logged before one it reaches, so none of the report reaches a later one |
| PoppedLog.LoggedKeyByKey | skillset-main/scripts/check-import-cycles.ts:199-203 | each key of the outer loop has all it reaches popped before the next one starts, so a component stands before every other that later keys are needed to reach |
| PoppedLog.RootAfterTies | skillset-main/scripts/check-import-cycles.ts:184-196 | the root of a component is popped last, so the stable sort lists it after every file of the component that ties with it |
| TarjanScc.SccSearch.VisitKeys | skillset-main/scripts/check-import-cycles.ts:199-203 | the outer loop visits every key, logs key by key, and closes the component of the first key from that key |
| TarjanScc.CollectComponents | skillset-main/scripts/check-import-cycles.ts:155-203 | throws exactly when some file has a falsy name; otherwise returns every maximal strongly connected set with a cycle, sorted, each once, and nothing else, in the order in which the search finds them: imports first, key by key |
| CycleReport.CollectStronglyConnectedComponents | skillset-main/scripts/check-madge-import-cycles.ts:113-167 | the function both scripts share, final sort included: every cyclic component once; a larger one before any smaller one, and of one size in the order of the names joined by newlines, ties in the order in which they were found |
| CycleReport.NothingListedIffAcyclic | skillset-main/scripts/check-madge-import-cycles.ts:169-188 | the list is empty exactly on acyclic graphs, so the exit code 0 or 1 is right |
| CycleReport.Check | skillset-main/scripts/check-import-cycles.ts:253-276 | the whole check: exit code 0 exactly on acyclic graphs, otherwise 1 with a simple cycle of imports as evidence for every component |
| StableSorting.SortSameIff | skillset-main/scripts/check-import-cycles.ts:204-207 | what `toSorted` leaves open: two lists of the same values sort to the same list exactly when ties come in the same order in both |
| CanonicalReport.SameReport | skillset-main/scripts/check-import-cycles.ts:155-208 | without tied names on a cycle and without tied components apart, two graphs with the same files and imports give the identical list, whatever the order of keys and imports and however often an import is repeated |
| CanonicalReport.TiedNamesTell | skillset-main/scripts/check-import-cycles.ts:194-196 | if two files on one cycle have tied names, some order of keys gives another list |
| CanonicalReport.TiedComponentsTell | skillset-main/scripts/check-import-cycles.ts:204-207 | if two components of one size with tied signatures do not reach each other, some order of keys gives another list |
| CanonicalReport.CanonicalExactly | skillset-main/scripts/check-import-cycles.ts:155-208 | so the list is the same for every order of keys and imports exactly if the graph has neither such names nor such components; otherwise some other order never gives it |
| CanonicalReport.CanonicalWithoutNewlines | skillset-main/scripts/check-import-cycles.ts:20-22 | file names without newlines leave no components tied, when the comparison separates the signatures |
| CanonicalReport.NewlinesTie | skillset-main/scripts/check-import-cycles.ts:20-22 | file names with newlines can give two components one signature: two graphs with the same files and imports in another order of keys, the only report of each, and these differ |
| CycleWitness.WitnessSearch.Visit | skillset-main/scripts/check-import-cycles.ts:221-241 | one call of the closure: a simple cycle inside the component reached from its first file, or every file it can reach is left behind and none of them closes a cycle |
| CycleWitness.WitnessSearch.Follow | skillset-main/scripts/check-import-cycles.ts:224-238 | one import: skipped outside the component, closed into a cycle if on the path, visited once |
| CycleWitness.ExhaustedHasNoCycle | skillset-main/scripts/check-import-cycles.ts:223-240 | although visited files are never unmarked, no cycle runs through the files left behind |
| CycleWitness.CyclicNeverExhausted | skillset-main/scripts/check-import-cycles.ts:242 | a cyclic component is never exhausted |
| CycleWitness.FindCycleWitness | skillset-main/scripts/check-import-cycles.ts:210-243 | a simple cycle inside the component whenever one can be reached from its first file; the fallback is taken exactly when none can, so never for a component of the report |
| TranslationBatches.BuildTranslationBatches | skillset-main/scripts/control-ui-i18n.ts:662-686 | the batches concatenate to the items; each has one item, or at most twenty whose keys and texts together have no more characters than the budget less two and ten for each item; none could have taken the next item, and no order-preserving split into such batches is shorter |
| TranslationBatches.EstimateCounts | skillset-main/scripts/control-ui-i18n.ts:502-504 | the estimate is two, eight for each item, and the length of all keys and texts together |
| TranslationBatches.GreedyStaysAhead | skillset-main/scripts/control-ui-i18n.ts:662-686 | the exchange argument: a maximal split never falls behind any other |
| TranslationBatches.FewestBatches | skillset-main/scripts/control-ui-i18n.ts:662-686 | a maximal split has the fewest batches |
| TranslationBatches.GreedyUnique | skillset-main/scripts/control-ui-i18n.ts:662-686 | it is the only maximal one, so the method's promises fix its result |
| TranslateBatch.ReadReply | skillset-main/scripts/control-ui-i18n.ts:945-955 | a reply is accepted exactly if every key has a text that is not blank; otherwise the first missing key is reported |
| TranslateBatch.TranslateItems | skillset-main/scripts/control-ui-i18n.ts:928-990 | the loop over attempts with its recursion on timed-out halves computes the recursive specification, for any translator; what that comes to is said by the rows of `TranslateOutcomes` |
| TranslateOutcomes.AnswerAccepted | skillset-main/scripts/control-ui-i18n.ts:943-953 | an answer is accepted exactly if every item has a text that is not blank, and those texts are the result |
| TranslateOutcomes.AnswerRefused | skillset-main/scripts/control-ui-i18n.ts:943-955 | any other is refused with its own message or for the first item without such a text |
| TranslateOutcomes.BatchIsJob | skillset-main/scripts/control-ui-i18n.ts:936-990 | with all its retries and nested splits a batch is a list of jobs, one prompt at a time: a good answer finishes the first job, a timeout on several items puts its two halves in its place, any other first failure tries it once more, and everything else ends the run |
| TranslateOutcomes.FailsOnlySo | skillset-main/scripts/control-ui-i18n.ts:955-989 | a run fails only at its last prompt, on a timeout of one item or on the second failure of one batch whose first was no timeout; so a timeout of several items never ends it |
| TranslateOutcomes.SplitsDown | skillset-main/scripts/control-ui-i18n.ts:962-982 | when every batch of several items times out at once and every single item is answered at once, all n items are translated in 2n - 1 prompts |
| TranslateBatch.AllOrNothing | skillset-main/scripts/control-ui-i18n.ts:928-990 | for every failure pattern: an error, or a map with exactly the items' keys, every text not blank and returned for that key by some prompt of this run |
| TranslateBatch.PromptBound | skillset-main/scripts/control-ui-i18n.ts:936-988 | n items take at most 4n - 2 prompts |
| TranslateBatch.BoundIsTight | skillset-main/scripts/control-ui-i18n.ts:936-988 | for every n that many prompts can happen, and succeed |
| PiRpcClient.RpcClient.Prompt | skillset-main/scripts/control-ui-i18n.ts:817-818 | calling `prompt` queues a message behind all earlier ones |
| PiRpcClient.RpcClient.RunLink | skillset-main/scripts/control-ui-i18n.ts:818-877 | the next link of the sequence: rejected after an earlier rejection or on a closed client, otherwise written with the next id and made pending |
| PiRpcClient.RpcClient.HandleStdoutLine | skillset-main/scripts/control-ui-i18n.ts:769-815 | one line of stdout: only a `response` is matched by id, an `agent_end` settles whatever is pending |
| PiRpcClient.RpcClient.OnTimeout | skillset-main/scripts/control-ui-i18n.ts:837-849 | a timer rejects its own prompt if that is still pending, and closes the client (spelled out by `PiRpcProgress.EventSettles`) |
| PiRpcClient.RpcClient.OnWriteError | skillset-main/scripts/control-ui-i18n.ts:866-876 | a failed write rejects its own prompt and clears it if pending |
| PiRpcClient.RpcClient.OnProcessClose | skillset-main/scripts/control-ui-i18n.ts:745-750 | the end of the process closes the client and rejects what is pending |
| PiRpcClient.StepOrderly | skillset-main/scripts/control-ui-i18n.ts:769-881 | every step keeps the invariant: at most one prompt pending, the newest written; prompts written in call order, each with its own message; a rejection breaks the sequence |
| PiRpcClient.OneAtATime | skillset-main/scripts/control-ui-i18n.ts:769-881 | over every interleaving, a prompt is written only after every earlier one has resolved |
| PiRpcClient.FailStop | skillset-main/scripts/control-ui-i18n.ts:817-881 | after the first rejected prompt nothing more is written and nothing more resolves |
| PiRpcProgress.EventSettles | skillset-main/scripts/control-ui-i18n.ts:738-876 | what each event does to the prompt being answered: its own timer, its own refused `response` or failed write, an error or the end of the process and any `agent_end` settle it with the stated outcome; everything else leaves all outcomes alone; and what closes the client |
| PiRpcProgress.AllAnswered | skillset-main/scripts/control-ui-i18n.ts:769-881 | any number of calls, each answered after its prompt went out, are all written in order with their messages and resolve with their answers |
| PiRpcProgress.RestRejected | skillset-main/scripts/control-ui-i18n.ts:818-821 | in a broken or closed client each queued call is rejected as its link runs, with the first rejection or because the client is closed |
| PiRpcProgress.NobodyWaits | skillset-main/scripts/control-ui-i18n.ts:745-821 | after the end of the process, whatever happened before, no call is left waiting |
| PiRpcClient.OwnAnswer | skillset-main/scripts/control-ui-i18n.ts:804-813 | if the process sends at most one `agent_end` for each prompt it was given, in order, every resolved prompt has its own answer |
| PiRpcClient.PerformAll | skillset-main/scripts/control-ui-i18n.ts:745-881 | any sequence of events performed on the class takes it through the states of the machine, so prompts go out one at a time and each has its own answer when the child behaves |
| PiRpcClient.StrayEndMisattributed | skillset-main/scripts/control-ui-i18n.ts:804-813 | the assumption is needed everywhere: after any run of a well-behaved child whose client can still resolve a prompt, an `agent_end` against the assumption leads to a prompt resolved with what is not its answer, and a repeated one always goes to a later prompt; the one exception is a line that foretells the next answer |
| TranslationTree.GetPut | skillset-main/scripts/control-ui-i18n.ts:296-311 | a written text is read back from its path |
| TranslationTree.GetPutApart | skillset-main/scripts/control-ui-i18n.ts:296-311 | a write leaves every path alone that neither runs through the written one nor the other way round |
| TranslationTree.GetPutOnly | skillset-main/scripts/control-ui-i18n.ts:296-311 | a write adds no other path |
| TranslationTree.PutLeavesBack | skillset-main/scripts/control-ui-i18n.ts:1138-1141 | writing a tree's texts back in their own order gives the tree without its empty sub-maps, property order included |
| TranslationTree.WrittenInAnyOrder | skillset-main/scripts/control-ui-i18n.ts:1138-1141 | in any order the same texts end up at the same paths |
| FlatTranslations.FlattenTranslations | skillset-main/scripts/control-ui-i18n.ts:284-294 | the recursive loop over entries computes the specification of flattening |
| FlatTranslations.FlattenWritesLeaves | skillset-main/scripts/control-ui-i18n.ts:284-294 | flattening sets one dotted key for each text of the tree, in order |
| FlatTranslations.RoundTrip | skillset-main/scripts/control-ui-i18n.ts:284-311 | if no dotted key starts with a dot and no key's parts begin another's, flattening the rebuilt tree gives back exactly the flat map |
| FlatTranslations.SurvivesIffRebuildable | skillset-main/scripts/control-ui-i18n.ts:284-311 | every entry survives rebuilding and flattening exactly under that condition |
| FlatTranslations.FlattenPlain | skillset-main/scripts/control-ui-i18n.ts:284-294 | trees whose keys are non-empty and free of dots flatten to maps that meet it |
| FlatTranslations.RebuildPlain | skillset-main/scripts/control-ui-i18n.ts:284-311 | for such trees rebuilding the flattened entries gives the tree without empty sub-maps, and flattening that gives the same entries |
| FlatTranslations.RebuildPlainInAnyOrder | skillset-main/scripts/control-ui-i18n.ts:296-311 | in any order of the entries no write clobbers another, and the result differs at most in the order of properties |
| TranslationMemory.LoadTranslationMemory | skillset-main/scripts/control-ui-i18n.ts:379-398 | the loop over the lines of the file: blank lines and entries without a key or text are dropped, later entries replace earlier ones |
| TranslationMemory.LoadRendered | skillset-main/scripts/control-ui-i18n.ts:379-408 | loading a rendered list of entries gives that list |
| TranslationMemory.MemoryRoundTrip | skillset-main/scripts/control-ui-i18n.ts:379-408 | loading a rendered memory gives every key its entry again, and rendering it again gives the same text, even when the comparison ties different keys |
| MemoryFile.LastLineCounts | skillset-main/scripts/control-ui-i18n.ts:379-398 | from a file with any entries, loading takes for each key the last one that has it and a translation that is not blank |
| MemoryFile.WrittenInKeyOrder | skillset-main/scripts/control-ui-i18n.ts:400-409 | the file has every entry on a line of its own, ordered by cache key |
| SyncRun.Classify | skillset-main/scripts/control-ui-i18n.ts:1020-1053 | the loop over the source keys: reused texts, kept fallbacks and pending items as specified key by key |
| SyncRun.StoreBatch | skillset-main/scripts/control-ui-i18n.ts:1085-1104 | the loop that stores one batch's texts in the map and the memory; no text of a completed batch is missing |
| SyncRun.TranslatePending | skillset-main/scripts/control-ui-i18n.ts:1055-1108 | batching and translating: the error of the first greedy batch that fails, or every pending key gets the text its batch was given and its memory entry |
| SyncRun.OneOutcome | skillset-main/scripts/control-ui-i18n.ts:1055-1095 | the translator fixes that outcome, because there is only one greedy split |
| SyncRun.FillFallbacks | skillset-main/scripts/control-ui-i18n.ts:1117-1131 | the loop over pending keys without a text; its branch that keeps an existing text is unreachable |
| SyncRun.BuildNextMap | skillset-main/scripts/control-ui-i18n.ts:1138-1141 | the loop that writes the merged texts into a new map |
| SyncRun.BuildMeta | skillset-main/scripts/control-ui-i18n.ts:1143-1172 | the chain of comparisons in the code gives the metadata that the fixpoint, `SyncLocale.StampKept` and `SyncMeaning.MetaWritten` speak of |
| SyncRun.SyncOneLocale | skillset-main/scripts/control-ui-i18n.ts:999-1235 | the whole run equals its specification for the texts the translator gave; it asks the translator nothing without a provider or pending keys, and otherwise fails exactly when translating the pending items does, with that error; a completed run has an answer for every pending key; what its report says is told by `SyncMeaning.ReportTells` |
| SyncLocale.ProviderLeavesNoFallback | skillset-main/scripts/control-ui-i18n.ts:1029-1053 | a completed run with a provider leaves no fallback keys |
| SyncLocale.FallbackIff | skillset-main/scripts/control-ui-i18n.ts:1117-1131 | without a provider the fallbacks are the kept ones and the keys with neither memory nor existing text |
| SyncLocale.MemoryAfter | skillset-main/scripts/control-ui-i18n.ts:1085-1104 | after a run the memory holds a new entry for every pending key and is unchanged for the others |
| SyncLocale.LoadedAgain | skillset-main/scripts/control-ui-i18n.ts:1006-1018 | loading what a completed write left gives every source key the text the run gave it, and its memory entry |
| SyncLocale.DecidedAgain | skillset-main/scripts/control-ui-i18n.ts:1024-1053 | the next run reuses every source key with that text, as a fallback exactly if it was one |
| SyncLocale.StampKept | skillset-main/scripts/control-ui-i18n.ts:1158-1172 | the old time stamp stays, whatever the clock says, exactly when no other field of the metadata changes |
| SyncFixpoint.FallbacksAgain | skillset-main/scripts/control-ui-i18n.ts:1117-1149 | without a provider the next run has the same fallbacks, and lists them in the same order exactly if no new key stands before a kept fallback that ties with it |
| SyncFixpoint.MetaAgain | skillset-main/scripts/control-ui-i18n.ts:1143-1172 | the next run rebuilds the same metadata, time stamp included, exactly if that list is the same |
| SyncFixpoint.StableAfter | skillset-main/scripts/control-ui-i18n.ts:1143-1193 | it expects exactly the four files the first run left exactly if nothing drifts in that way |
| SyncFixpoint.CleanAfterWrite | skillset-main/scripts/control-ui-i18n.ts:999-1235 | after a completed `sync --write`, whatever the translator answered, the next run of the same configuration asks it nothing, and reports a change exactly if a new key stood before a kept fallback that ties with it |
| SyncFixpoint.CleanAfterTwoWrites | skillset-main/scripts/control-ui-i18n.ts:999-1235 | a second write always settles it: the check after that is clean |
| SyncFixpoint.NewKeyBeforeTiedFallback | skillset-main/scripts/control-ui-i18n.ts:1117-1149 | the failing input: files with one fallback key, a source with a tied new key before it, one write, and a check that reports a change |
| SyncFixpoint.TwoKeysAreFine | skillset-main/scripts/control-ui-i18n.ts:1117-1149 | its assumptions about the configuration hold of any two different keys without dots |
| SyncProviders.CleanWithoutProvider | skillset-main/scripts/control-ui-i18n.ts:1013-1193 | after a completed `sync --write` a run of the same source on a machine without a provider has nothing to translate and reports a change exactly if the write drifted; after a write with a provider, whichever, its check is always clean |
| SyncProviders.NextWithProvider | skillset-main/scripts/control-ui-i18n.ts:1013-1193 | a next run with a provider translates exactly the keys left on English, leaves none, and reports a change exactly if there were any or the metadata name another provider or model |
| SyncProviders.MetaElsewhere | skillset-main/scripts/control-ui-i18n.ts:1143-1172 | without a provider the names in the metadata are carried over, with one they are its own |
| SyncMeaning.TextWritten | skillset-main/scripts/control-ui-i18n.ts:1024-1141 | each key is written with its memory text, else its old text, else the fresh translation or, without a provider, in English; a fallback to be redone skips the first two |
| SyncMeaning.EntryWritten | skillset-main/scripts/control-ui-i18n.ts:1085-1104 | each fresh translation is in the memory file under its cache key, with the key, both texts, provider, model, locale and time |
| SyncMeaning.MetaWritten | skillset-main/scripts/control-ui-i18n.ts:1143-1172 | the metadata list the fallbacks in order, each once, and count the source keys and those that are no fallbacks |
| SyncMeaning.GlossaryWritten | skillset-main/scripts/control-ui-i18n.ts:1179-1179 | a glossary is left as it is; where there is none the default one is written |
| SyncMeaning.RunIsJobs | skillset-main/scripts/control-ui-i18n.ts:1071-1104 | all batches of a run are one list of jobs, worked off prompt by prompt until one fails |
| SyncMeaning.ReportTells | skillset-main/scripts/control-ui-i18n.ts:1184-1235 | a change is reported exactly if some file differs from what is expected; the run writes only then, when asked to and not only checking, and counts the fallbacks |
| GuardrailScanner.QuoteScanState.BeginQuotedSection | skillset-main/scripts/check-temp-path-guardrails.ts:46-52 | a quote character, and only that, opens a quoted section |
| GuardrailScanner.QuoteScanState.ConsumeQuotedChar | skillset-main/scripts/check-temp-path-guardrails.ts:54-70 | one character inside quotes: escapes, and the closing quote |
| GuardrailScanner.FindMatchingParen | skillset-main/scripts/check-temp-path-guardrails.ts:72-95 | the first unquoted `)` that brings the depth to zero, or -1 exactly when there is none |
| GuardrailScanner.SplitTopLevelArguments | skillset-main/scripts/check-temp-path-guardrails.ts:97-162 | the loop gives the trimmed pieces between the top-level commas, without a blank last one |
| GuardrailScanner.CutAtTopLevelCommas | skillset-main/scripts/check-temp-path-guardrails.ts:144-161 | the pieces join to the source again, and the cuts are exactly its unquoted commas outside all brackets |
| GuardrailScanner.CallRoundTrip | skillset-main/scripts/check-temp-path-guardrails.ts:72-162 | well-formed arguments printed as `(a, b, ...)` anywhere in a source are found and read back unchanged |
| GuardrailArguments.NestedCallRoundTrip | skillset-main/scripts/check-temp-path-guardrails.ts:46-162 | well-formed are all arguments that nest properly: brackets of three kinds, and string literals of three kinds with any contents, their mark and backslashes escaped; so commas, quotes and brackets inside them do no harm |
| GuardrailArguments.ArgumentsAre | skillset-main/scripts/check-temp-path-guardrails.ts:97-162 | for any source, the pieces between the cuts are given trimmed, blank ones too, without a blank last one |
| GuardrailScanner.CallArguments | skillset-main/scripts/check-temp-path-guardrails.ts:189-194 | the use of both: no arguments exactly when no parenthesis matches, otherwise those of the text up to it |
| WorkerPools.ClaimInv | skillset-main/scripts/update-clawtributors.ts:498-503 | claiming the next index keeps the invariant: indices are claimed in order and once, those in flight belong to one worker each, results are stored exactly for settled calls |
| WorkerPools.SettleInv | skillset-main/scripts/update-clawtributors.ts:498-503 | so does taking up a settled call, whichever worker's it is |
| WorkerPools.InFlightBounded | skillset-main/scripts/update-clawtributors.ts:498-504 | in every state of every run, no index has been called twice and no more calls are in flight than there are workers |
| WorkerPools.StepsBounded | skillset-main/scripts/update-clawtributors.ts:498-504 | every step settles a new call, so no run has more steps than items |
| WorkerPools.CanFinish | skillset-main/scripts/update-clawtributors.ts:498-505 | from every state the pool can run to its end |
| WorkerPools.SettledPool | skillset-main/scripts/update-clawtributors.ts:490-506 | a pool that has come to rest has rejected exactly if some call rejects, with such a call's error, and otherwise holds the sequential results |
| WorkerPools.ConcurrentMap.constructor | skillset-main/scripts/update-clawtributors.ts:495-504 | max(1, min(limit, n)) workers run to their first await |
| WorkerPools.ConcurrentMap.Loop | skillset-main/scripts/update-clawtributors.ts:499-502 | the worker loop from its head to the next await is one claim |
| WorkerPools.ConcurrentMap.Resume | skillset-main/scripts/update-clawtributors.ts:498-503 | a settled mapper call is stored and the worker goes on, or the worker rejects |
| WorkerPools.MapConcurrent | skillset-main/scripts/update-clawtributors.ts:490-506 | whatever the order in which calls settle: the sequential map in input order, or a rejection exactly when some call rejects |
| WorkerPools.SourceReader.Loop | skillset-main/scripts/check-temp-path-guardrails.ts:233-242 | the reader's worker loop: empty paths are passed over, and the index that overshoots the end does no harm |
| WorkerPools.SourceReader.Resume | skillset-main/scripts/check-temp-path-guardrails.ts:243-254 | a file that cannot be read leaves nothing behind, any other its entry at its own index |
| WorkerPools.ReadRuntimeSourceFiles | skillset-main/scripts/check-temp-path-guardrails.ts:223-263 | whatever the order in which reads settle: the readable files in the order of their paths |
| JpegWalker.ReadJpegDimensions | skillset-main/scripts/update-clawtributors.ts:546-590 | the walk ends and never reads out of range on any bytes, and computes its specification |
| JpegWalker.WalkFindsExactlyTheHeader | skillset-main/scripts/update-clawtributors.ts:548-587 | dimensions are returned exactly when what follows the first two bytes is stray bytes, lone markers and segments, then a frame header of those dimensions that is eight bytes long or not the end of the file |
| JpegWalker.MarkerTable | skillset-main/scripts/update-clawtributors.ts:557-577 | the frame headers are SOF0 to SOF15 without DHT, JPG and DAC, and the markers without a length TEM, RST0 to RST7, SOI and EOI |
| JpegWalker.FillByteHidesHeader | skillset-main/scripts/update-clawtributors.ts:549-572 | a fill byte before a marker from 0xc0 on makes any file below 0xc000 bytes yield nothing |
| Utf16Slice.SliceUtf16Safe | skillset-main/src/utils.ts:88-115 | for all units and indices: exactly the characters lying wholly inside the normalised range, also after a swap and when the bounds cross |
| Utf16Slice.PairsAreCharacters | skillset-main/src/utils.ts:80-86 | a high and a low surrogate are the two units of exactly one character above 0xffff |
| Utf16Slice.WithinIsSlice | skillset-main/src/utils.ts:100-114 | moving each bound that splits a pair inwards selects those characters |
| Utf16Slice.TruncateUtf16Safe | skillset-main/src/utils.ts:117-123 | the longest prefix within the limit that splits no pair |
| Utf16Slice.SliceStaysWellFormed | skillset-main/src/utils.ts:88-115 | a slice of a well-formed string is well formed |
| Utf16Slice.CutLosesAtMostThePair | skillset-main/src/utils.ts:88-115 | cutting at an index loses at most the pair at the cut |
| Base64Url.Base64UrlEncode | skillset-frontend/src/device-identity.ts:19-23 | the loop, `btoa` and the three replacements give unpadded base64url |
| Base64Url.Base64UrlDecode | skillset-frontend/src/device-identity.ts:25-32 | the normalised input, padded anew, is decoded into the array exactly as specified, or `atob` throws |
| Base64Url.AtobPadded | skillset-frontend/src/device-identity.ts:26-28 | `atob` on the normalised input with the recomputed padding reads, apart from white space, symbols and then no `=` or as many as complete the last group |
| Base64Url.PaddingCompleted | skillset-frontend/src/device-identity.ts:26-27 | without white space the recomputed padding completes the input exactly when it has no more `=` than its padding |
| Base64Url.SpaceTolerated | skillset-frontend/src/device-identity.ts:26-28 | white space in unpadded text, which `atob` drops but the padding counts, is tolerated exactly when there are 4n such characters or the whole length is a multiple of four |
| Base64Url.DecodeEncode | skillset-frontend/src/device-identity.ts:19-32 | every byte string comes back |
| Base64Url.EncodeDecode | skillset-frontend/src/device-identity.ts:19-32 | a string is an encoding, and comes back from its bytes, exactly if it uses the URL alphabet, leaves no single symbol over and has no loose bits |
| Base64Layout.EncodedLayout | skillset-frontend/src/device-identity.ts:19-23 | each character of an encoding stands for its six bits of the bytes in the URL-safe table, the highest first and zeros after the last |
| Base64Layout.DecodedLayout | skillset-frontend/src/device-identity.ts:25-32 | text of either table is decoded exactly if no single symbol is left over, into the whole bytes its bits make, loose bits dropped |
| Base64Layout.OtherTextRefused | skillset-frontend/src/device-identity.ts:25-28 | any other character makes `atob` throw |
| ImportClosure.CollectRelativeImportGraph | skillset-main/scripts/load-channel-config-surface.ts:117-144 | exactly the files reachable from the entry by resolved relative imports, each once and the entry first; it fails exactly if one of them cannot be read |
| ImportClosure.ResolveCommonAncestor | skillset-main/scripts/load-channel-config-surface.ts:146-163 | the loops leave as many leading segments of the first path as every other path lets stand |
| ImportClosure.Ascend | skillset-main/scripts/load-channel-config-surface.ts:154-160 | the inner loop climbs exactly as far as one candidate asks for |
| ImportClosure.AncestorCovers | skillset-main/scripts/load-channel-config-surface.ts:146-163 | every path lies under the result, which is then the longest common prefix, unless some path lies strictly above the first and all others go on below it the same way |
| ImportClosure.ShortByOne | skillset-main/scripts/load-channel-config-surface.ts:146-163 | in that family the result is the path above the first and one segment more |
| BlockLines.MarkedLines | skillset-main/scripts/sync-moonshot-docs.ts:21-37 | the document is cut at line ends into what precedes the marked lines, the marked lines and what follows |
| BlockLines.FirstMarkers | skillset-main/scripts/sync-moonshot-docs.ts:21-33 | the first start marker and the first end marker from there on count; an error exactly if one of them is missing |
| BlockLines.OutsideKept | skillset-main/scripts/sync-moonshot-docs.ts:15-51 | everything outside the marked lines is kept, but for a newline right after them when nothing follows |
| BlockLines.SecondRun | skillset-main/scripts/sync-moonshot-docs.ts:15-51 | a second run changes nothing exactly if the end marker occurs in neither the start marker nor the indented new lines; otherwise the document grows |
| BlockLines.HeadByLines | skillset-main/scripts/sync-moonshot-docs.ts:39-45 | for the block as a whole that is: in none of its lines but the last |
| Appcast.MatchReads | skillset-main/scripts/sparkle-build.ts:12-20 | the version expression matches exactly four digits, one or two, one or two and a suffix, and reads them |
| Appcast.ParseReads | skillset-main/scripts/sparkle-build.ts:15-36 | a trimmed version with a month from 1 to 12 and a day from 1 to 31 is read, and no other |
| Appcast.LongestDigits | skillset-main/scripts/sparkle-build.ts:39-48 | the lane is read from the longest stretch of digits the suffix ends with |
| Appcast.SparkleBuildFloorsFromShortVersion | skillset-main/scripts/sparkle-build.ts:14-53 | the numbers, put together as decimal text: the date as yyyymmdd, ten times it as legacy floor, a hundred times it and the lane as lane floor; the lane is 90 without a suffix, else its last digits but at most 89, or 1; nothing for what is no calendar version |
| Appcast.LaneFloorsOrder | skillset-main/scripts/sparkle-build.ts:37-52 | lane floors order versions by date and then lane, a plain release above every suffixed one of its day |
| Appcast.CodingsApart | skillset-main/scripts/release-check.ts:93 | legacy floors lie below the least lane-coded build number, lane floors do not from the year 1000 on and only then |
| Appcast.CollectAppcastSparkleVersionErrors | skillset-main/scripts/release-check.ts:502-559 | the two loops produce the specified errors in order |
| Appcast.AdoptedBy | skillset-main/scripts/release-check.ts:534-541 | a date is from the adoption on exactly if the fixed date or some lane-coded item is no later |
| Appcast.ErrorsName | skillset-main/scripts/release-check.ts:502-559 | the errors name exactly the items without a version, those whose version is no number, and those below the floor due to them |
| Appcast.SilentIffSound | skillset-main/scripts/release-check.ts:502-559 | no errors exactly on non-empty lists with numeric versions in which every dated item reaches the floor due to it |
| Appcast.LanesStay | skillset-main/scripts/release-check.ts:534-556 | without errors, once an item is lane-coded every item of the same or a later date reaches its lane floor, and from the year 1000 on is lane-coded too |
| Appcast.LanesStayFrom | skillset-main/scripts/release-check.ts:534-556 | a version is always lane-coded where it has to be exactly if it is from the year 1000 on; before that, two releases of any version without an error, one of them not lane-coded |

## Left out

- Building the import graph (TypeScript syntax trees, type-only edges, module resolution, which files are scanned): the graph is taken as given, with any imports; console output beyond the printed cycles.
- JavaScript objects: keys named like `Object.prototype` members, and the reordering of integer-like keys in `Object.entries`; an object is its properties in insertion order.
- TranslationTree.Put: models the cursor walk of `setNestedValue` on values instead of in place, because a map is only ever reached through its root; aliasing of sub-maps is not captured.
- JsMap.Set: a JavaScript `Map` is modelled as its list of entries and reassigned, so its identity is not captured.
- SyncFixpoint.CleanAfterWrite: assumes that the source stays fixed (`SyncProviders` has the runs in which the provider setting does not), that cache keys are non-empty and tell the source keys apart (a hash is taken to be injective on them), that dotted source keys can be written back, and that rendering and parsing of the files are inverse.
- SyncRun.SyncOneLocale: errors of reading, writing and formatting files, and malformed JSON in the loaded files, are not modelled; nor are process spawning, client start-up and reset, delays, log lines, prompt wording and the command line.
- TranslateBatch.ReadReply: a reply is a finite map from keys to texts or other JSON values; whatever goes wrong before that (no client, a rejected prompt, unparsable JSON, JSON `null`) is one error with a message.
- PiRpcClient.OwnAnswer: assumes a process that sends at most one `agent_end` for each prompt it was given, in order; the extraction of the text from the message list is part of the line.
- PiRpcClient.RpcClient.HandleStdoutLine: a stdout line holding JSON `null`, on which the handler's own promise would reject unhandled, is not modelled, nor are heartbeats and stderr.
- TarjanScc.CollectComponents: the order of unrelated components that one key reaches, which follows the order of imports, is left open; the theorems about the report do not need it.
- CycleWitness.FindCycleWitness: which of several cycles through a component is printed, which follows the order of imports, is left open.
- GuardrailScanner.FindMatchingParen: the open index is a natural number; comment stripping and the search for `path.join` calls are regular expressions and left out.
- WorkerPools.MapConcurrent: the limit is an integer and the mapper's calls are independent of each other; rejection of the returned promise is modelled when the pool has come to rest, with the first rejection.
- WorkerPools.InFlightBounded: counts the reader's and the mapper's workers as `count`, which their constructors set to min(24, max(1, n)) and max(1, min(limit, n)).
- JpegWalker.ReadJpegDimensions: the JPEG signature test and the fixed-offset PNG reader before it are left out as easy members.
- Utf16Slice.SliceUtf16Safe: fractional and NaN indices are not modelled.
- Base64Url.Base64UrlDecode: which error `atob` throws is not modelled; non-zero pad bits are accepted, as browsers do.
- ImportClosure.CollectRelativeImportGraph: the import pattern and the candidates tried for a specifier are left out; each file comes with what its specifiers resolve to. The order of the files after the entry is left open.
- ImportClosure.ResolveCommonAncestor: paths are absolute POSIX paths by segments, without `..`.
- BlockLines.SecondRun: needs markers that are not empty and hold no newline, as all callers pass.
- Appcast.CollectAppcastSparkleVersionErrors: the extraction of items and tags from the XML is left out; build numbers are integers of any size, where the script's numbers round above 2^53, far beyond every floor.
- Rewriting the contributors block, scores and login guessing, the browser front end beyond base64url, pagination, usage totals, command-line parsers and all network, GitHub and release plumbing.
