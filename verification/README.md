# Verified models of the gateway's scripts and plugins

This project models the algorithmic parts of the repository in Dafny and proves what they are for.
`dafny verify dfyconfig.toml` checks everything.

**Import-cycle check** (`Graphs`, `TarjanState`, `ImportCycles`, `CycleWitness`). The recursive
search keeps its mutable fields: indexes, low links, stack, stack membership. Over every graph it
throws exactly when some module name is empty, and otherwise reports exactly the cyclic strongly
connected components, each once. So the verdict is "no cycles" exactly for acyclic graphs, and
every reported component comes with exactly one genuine cycle inside it. The throw labelled "stack
underflow" is unreachable for non-empty names, and so is the fallback of the witness search.

**Translation sync** (`TranslationTree`, `TranslationObject`, `TranslationBatches`,
`TranslateBatch`, `BatchRuns`, `PiRpcClient`, `SyncDecision`, `SyncMeaning`, `MemoryKeys`,
`SyncFixpoint`, `SyncLocale`). Flattening a translation map and building it again by nested
assignment undo each other under conditions that are exact on both sides. The batcher computes the
only greedy split. The retrying, splitting translator succeeds exactly when the replies follow one
of the courses it allows, and needs at most 4n - 2 prompts and ceil(log2 n) levels for n items; both
bounds are attained. The RPC client object, taken through any list of events, answers every prompt
with its own reply although replies carry no id, and no prompt hangs. What a sync writes is stated
string by string from what it read, and a written sync is a fixpoint of the next sync.

**Active memory** (`RecallCache`, `ToggleLock`, `PromptStrip`). The bounded cache with a time to
live answers as the plain history of sets says. The lock is modelled by its promises, one chain per
path: calls run in order even when some throw, no toggle is lost under any interleaving, and every
call can come to its end. Stripping removes exactly the injected prompt block: a message without a
complete block only has its white space normalized.

**Pairing notifier** (`NotifyKeys`, `PairNotify`, `PairNotifyRuns`, `PairNotifyEffects`). A poll
sends each announced request exactly once to everybody who wants it. Over every run of polls and
commands a one-shot subscriber is served in at most one poll per arming, and a request pending
throughout is announced at most once a day.

**Contributor images** (`MapConcurrent`, `JpegScan`). Every interleaving of the workers gives the
sequential result. The JPEG scanner is exactly the reader of a grammar of marker segments (section
B.2.2 of ITU-T T.81).

**Text and releases** (`Utf16`, `SparkleBuild`, `Appcast`, `AppcastReport`). Slices of UTF-16
strings hold whole code points (section 3.9 of the Unicode Standard) and as many as the range
allows. Build floors glued together from digits are the intended numbers. A release feed is accepted
exactly when some cutover date separates its legacy builds from its lane builds, and the report
names exactly the entries at fault.

`Text`, `Decimals`, `Optional` and `Collections` hold what several modules share: trimming and splitting,
decimal notation, absent values, facts about sequences and sets.

Results that hold only under a condition:

- `TranslationTree.FlattenRebuildIffCanonical` and `TranslationTree.RebuildFlattenIffFlattenable`
  give the round trips with the condition as an if-and-only-if: an object under an empty top-level
  key, an empty sub-object, a dotted key, and overlapping or dot-led flat keys are what breaks them.
- `ToggleLock.ReadAfterWrite`: a written toggle store reads back exactly when no session key is blank.
- `ImportCycles.CollectStronglyConnectedComponents`: the search throws exactly on an empty name.
- `PiRpcClient.DuplicateReplyGoesAstray`: a process that answers one request twice makes the next
  prompt resolve with the wrong reply, so the discipline asked of the process is needed.
- `MemoryKeys.HashedKeysDistinct`: the memory keys of a source are distinct exactly when its hash
  confuses no two of the texts it is applied to.
- `MemoryKeys.AmbiguousIffFieldTwice`: two translators can share their memory keys, as
  `MemoryKeys.BarConfuses` shows; a provider and model are told from all others exactly when a bar and
  "model=" do not stand in a second place of their text.
- `Appcast.SeparatedIffLateYear`: a cutover separates legacy builds from lane builds exactly from the
  year 1000 on; `Appcast.EarlyYearsCanMix` is an accepted feed of earlier years whose builds mix.

## Model

| member | source | states |
|---|---|---|
| Graphs.AcyclicIffNoNodeOnCycle | scripts/check-import-cycles.ts:253-276 | A graph has no closed walk exactly when no node reaches itself by an edge: the two readings of "no cycle" agree |
| TarjanState.EnterKeepsInv | scripts/check-import-cycles.ts:165-170 | Opening a visit keeps the stack invariant: membership equals contents, stack ordered by index, open nodes reach what is stacked after them, stacked nodes reach an open node |
| TarjanState.LowReachesOpen | scripts/check-import-cycles.ts:175-180 | A low link below the node's own index means that the node reaches an open node stacked before it |
| TarjanState.LeaveKeepsInv | scripts/check-import-cycles.ts:181-183 | Returning without popping keeps the stack invariant although the node is no longer open |
| TarjanState.SegmentIsScc | scripts/check-import-cycles.ts:181-193 | When the low link equals the index, the stack from the node upwards is exactly one strongly connected component, and maximal |
| TarjanState.CyclicTest | scripts/check-import-cycles.ts:194-196 | More than one member or a self-import is exactly the test for a component with a cycle |
| TarjanState.ReportIsComponent | scripts/check-import-cycles.ts:194-196 | What is reported is a cyclic component and what is dropped lies on no cycle |
| TarjanState.PopKeepsInv | scripts/check-import-cycles.ts:184-196 | Popping and reporting a component keeps the stack invariant and the list of reports complete |
| ImportCycles.SccSearch.Visit | scripts/check-import-cycles.ts:165-197 | A visit indexes the node, keeps everything stacked before, finishes or leaves stacked what it found, bounds its low link, and throws only if a name is empty; it terminates on the unindexed nodes |
| ImportCycles.SccSearch.ExploreImport | scripts/check-import-cycles.ts:172-179 | One import handled: the low link accounts for it whether it was new, stacked or finished |
| ImportCycles.SccSearch.LowerLowLink | scripts/check-import-cycles.ts:175-178 | The low link becomes the minimum of itself and the bound, nothing else changes |
| ImportCycles.SccSearch.CloseComponent | scripts/check-import-cycles.ts:181-196 | Closing the visit of a root pops its component and reports it exactly if it is cyclic |
| ImportCycles.SccSearch.PopComponent | scripts/check-import-cycles.ts:184-193 | The pop loop takes off everything down to and including the node, each once, and throws only on an empty name |
| ImportCycles.ExploreStackedEdge | scripts/check-import-cycles.ts:176-178 | An import on the stack lowers the low link to its index and keeps the exploration invariant |
| ImportCycles.ExploreTreeEdge | scripts/check-import-cycles.ts:173-175 | After a recursive visit the low link takes in the child's low link and the exploration invariant holds |
| ImportCycles.PopVisited | scripts/check-import-cycles.ts:184-196 | After the component is popped the visit has done what every visit promises |
| ImportCycles.FinishedReports | scripts/check-import-cycles.ts:199-208 | When every key has been visited the reports are exactly the cyclic components, disjoint and without repeats |
| ImportCycles.CollectStronglyConnectedComponents | scripts/check-import-cycles.ts:155-208 | Throws exactly when some name is empty; otherwise reports exactly the cyclic strongly connected components, each once |
| ImportCycles.NothingReportedIffAcyclic | scripts/check-import-cycles.ts:265-267 | No component reported exactly when the graph is acyclic |
| ImportCycles.CycleNodeScc | scripts/check-import-cycles.ts:194-196 | Every node on a cycle belongs to a cyclic component |
| CycleWitness.CyclicSccHasNoDeadEnd | scripts/check-import-cycles.ts:221-241 | In a cyclic component every member imports a member, so the depth-first path never gets stuck |
| CycleWitness.WitnessSearch.Visit | scripts/check-import-cycles.ts:221-241 | Returns a closed walk inside the component without repeats, or restores the path and has met a dead end |
| CycleWitness.FindCycleWitness | scripts/check-import-cycles.ts:210-243 | For a cyclic component in any order: a cycle of graph edges inside it, distinct but for its ends; the fallback is never taken |
| CycleWitness.FindWitnesses | scripts/check-import-cycles.ts:269-273 | One cycle for each reported component, inside that component |
| CycleWitness.CheckImportCycles | scripts/check-import-cycles.ts:253-276 | Exit code 0 exactly for acyclic graphs, 1 otherwise with exactly one genuine cycle for each cyclic component; crash exactly on an empty name |
| TranslationTree.FullKeyIsJoin | scripts/control-ui-i18n.ts:281-291 | Descending with prefixes builds the dotted path, unless an object sits under an empty top-level key |
| TranslationTree.SameLeavesSameTree | scripts/control-ui-i18n.ts:281-308 | Trees with dot-free keys and no empty sub-objects are determined by their leaves |
| TranslationTree.LeavesPrefixFree | scripts/control-ui-i18n.ts:281-291 | No leaf path is a proper prefix of another |
| TranslationTree.FlattenTranslations | scripts/control-ui-i18n.ts:281-291 | Adds an entry for every leaf under its prefixed key, nothing else, whatever the order of the keys |
| TranslationTree.SetNestedLookup | scripts/control-ui-i18n.ts:293-308 | After assignment the path holds the text, paths that run into it hold nothing, all others are as before |
| TranslationTree.RebuildOnlyKeys | scripts/control-ui-i18n.ts:1135-1138 | Every leaf of the rebuilt tree comes from one of the keys, with that key's text |
| TranslationTree.RebuildAllKeys | scripts/control-ui-i18n.ts:1135-1138 | For prefix-free keys every key becomes a leaf of the rebuilt tree |
| TranslationTree.FlattenRebuildIffCanonical | scripts/control-ui-i18n.ts:281-308 | Rebuilding a flattened tree gives it back exactly if it has dot-free keys, no empty sub-object and no object under an empty top-level key |
| TranslationTree.RebuildFlattenIffFlattenable | scripts/control-ui-i18n.ts:281-308 | Flattening a rebuilt map gives it back exactly if its keys are prefix-free and none begins with a dot |
| TranslationTree.PlainIsFlattenable | scripts/control-ui-i18n.ts:281-291 | A tree whose keys are non-empty and dot-free flattens to keys that meet that condition |
| TranslationTree.LeadingDotIsLost | scripts/control-ui-i18n.ts:281-308 | The key ".a" does not come back from rebuilding and flattening |
| TranslationTree.OverlapIsLost | scripts/control-ui-i18n.ts:281-308 | The keys "a" and "a.b" do not both come back |
| TranslationTree.ObjectUnderEmptyKeyIsLost | scripts/control-ui-i18n.ts:281-308 | An object under an empty top-level key is not rebuilt |
| TranslationTree.EmptyObjectIsLost | scripts/control-ui-i18n.ts:281-308 | An empty sub-object is not rebuilt |
| TranslationObject.TranslationMap.SetNestedValue | scripts/control-ui-i18n.ts:293-308 | In place, sharing nothing between keys: the object's value becomes the nested assignment of its old value |
| TranslationObject.TranslationMap.WalkOn | scripts/control-ui-i18n.ts:296-307 | Moving the cursor down changes the value below that key and no other entry |
| TranslationObject.TranslationMap.ObjectAt | scripts/control-ui-i18n.ts:297-305 | The object under a key is kept if there is one and replaced by an empty one if there is a string or nothing |
| TranslationObject.TranslationMap.AssignText | scripts/control-ui-i18n.ts:307-307 | The last assignment sets one entry and keeps the others |
| TranslationObject.RebuildMap | scripts/control-ui-i18n.ts:1135-1138 | The loop over the source keys builds the rebuilt tree in a fresh object |
| TranslationBatches.BuildTranslationBatches | scripts/control-ui-i18n.ts:659-683 | The batches concatenate to the items, none is empty, each fits, and none could have taken the next item |
| TranslationBatches.RunningExceedsEstimate | scripts/control-ui-i18n.ts:499-501 | The running sum of the loop exceeds the true estimate by two characters per item |
| TranslationBatches.MultiItemBatchWithinBudget | scripts/control-ui-i18n.ts:659-683 | At most 20 items a batch, and a batch of several items is within budget by the true estimate |
| TranslationBatches.EstimateIsSum | scripts/control-ui-i18n.ts:499-501 | The estimate is two characters, eight for each item, and all keys and texts |
| TranslationBatches.BatchesAreFull | scripts/control-ui-i18n.ts:659-683 | A batch is closed only if it has 20 items or the next one would take it over the budget |
| TranslationBatches.GreedySplitUnique | scripts/control-ui-i18n.ts:659-683 | The greedy split is unique, so the loop computes the only one there is |
| TranslateBatch.ReadItems | scripts/control-ui-i18n.ts:943-950 | The loop over the items takes every answer or stops at the first missing one |
| TranslateBatch.ReadAnswerMeaning | scripts/control-ui-i18n.ts:943-950 | An answer is taken exactly if every item has a non-blank string, and then holds exactly the items' keys with those strings |
| TranslateBatch.TranslateItems | scripts/control-ui-i18n.ts:925-987 | The retrying, splitting method does what the recursive specification says for every sequence of replies, prompts included |
| TranslateBatch.TimeoutIffSaid | scripts/control-ui-i18n.ts:473-475 | An error counts as a timeout exactly if it says "timed out" somewhere, in any capitalization |
| TranslateBatch.AttemptMeaning | scripts/control-ui-i18n.ts:939-957 | An attempt succeeds exactly if the reply has a non-blank string for every item, and else fails with the client's, the prompt's or the parser's error or with the first missing key |
| TranslateBatch.SucceedsIffCourse | scripts/control-ui-i18n.ts:925-987 | A call succeeds exactly if the replies follow some course: answered at once, answered after one plain failure, or split after a timeout at the first or second attempt into halves that follow courses of their own |
| TranslateBatch.FollowedIsTaken | scripts/control-ui-i18n.ts:925-987 | A call whose replies follow a course succeeds with as many replies, the same prompts in the same order and as many levels of splits as the course has |
| TranslateBatch.SecondAttemptSucceeds | scripts/control-ui-i18n.ts:933-983 | After a first failure that is no timeout, a reply with every string makes the call succeed with these strings |
| TranslateBatch.FailureHasCause | scripts/control-ui-i18n.ts:952-986 | A call fails only at its last reply and with its error: some part of the batch failed twice, or timed out with at most one item left |
| TranslateBatch.PromptBound | scripts/control-ui-i18n.ts:925-987 | At most 4n - 2 prompts for n items and two for none, whatever the translator does |
| TranslateBatch.PromptBoundAttained | scripts/control-ui-i18n.ts:925-987 | The worst replies cost exactly 4n - 2 prompts and the call still succeeds |
| TranslateBatch.DepthWithin | scripts/control-ui-i18n.ts:960-974 | A batch of at most 2^k items is split at most k levels deep |
| TranslateBatch.DepthBound | scripts/control-ui-i18n.ts:960-974 | Splits nest at most ceil(log2 n) deep |
| TranslateBatch.DepthBoundAttained | scripts/control-ui-i18n.ts:960-974 | The worst replies drive the splits ceil(log2 n) levels deep |
| TranslateBatch.BoundsAreTight | scripts/control-ui-i18n.ts:925-987 | For every batch there is a translator for which the call succeeds after exactly 4n - 2 prompts with splits exactly ceil(log2 n) levels deep |
| TranslateBatch.CeilLog2IsLog | scripts/control-ui-i18n.ts:960-960 | Halving upwards is the base-two logarithm rounded up |
| TranslateBatch.TranslateFaithful | scripts/control-ui-i18n.ts:925-987 | On success the keys are exactly the items' keys, every value is one the translator gave for its key during the call, and the prompts used cover the items in order, each once |
| BatchRuns.AllFaithful | scripts/control-ui-i18n.ts:1075-1102 | Over all batches the keys are those of the pending strings and every text is one that the translator gave for its key during the run |
| BatchRuns.FailedRunHasCause | scripts/control-ui-i18n.ts:1075-1105 | A run over all batches fails only because some part of a batch failed twice, or timed out with at most one item left |
| BatchRuns.GoodTranslatorSucceeds | scripts/control-ui-i18n.ts:1075-1102 | A translator that gives every string in every reply is asked once for each batch and never makes the run fail |
| PiRpcClient.LinkKeepsInv | scripts/control-ui-i18n.ts:814-875 | Running the next link, whether it sends its request or rejects, keeps the chain, the pending prompt and the lines on the wire consistent |
| PiRpcClient.ReplyKeepsInv | scripts/control-ui-i18n.ts:801-810 | A final line resolves the pending prompt, and the reply it carries was written for that very prompt |
| PiRpcClient.RejectKeepsInv | scripts/control-ui-i18n.ts:738-764 | Rejecting the pending prompt on a process error, process end or failed response keeps the invariant and poisons the chain if a prompt was pending |
| PiRpcClient.FailureIsReject | scripts/control-ui-i18n.ts:834-873 | The request that a timer or a failed write names is pending exactly when its call is running |
| PiRpcClient.TimerKeepsInv | scripts/control-ui-i18n.ts:834-846 | A timer that fires, for whatever call and however late, keeps the invariant |
| PiRpcClient.WriteErrorKeepsInv | scripts/control-ui-i18n.ts:863-873 | A failed write, for whatever request and however late, keeps the invariant |
| PiRpcClient.NextKeepsInv | scripts/control-ui-i18n.ts:727-878 | Every event of client or process keeps the invariant of the chain, the pending prompt and the lines on the wire |
| PiRpcClient.RunKeepsInv | scripts/control-ui-i18n.ts:727-878 | The invariant holds after every run |
| PiRpcClient.EveryPromptGetsItsOwnReply | scripts/control-ui-i18n.ts:766-878 | Over every run at most one prompt is outstanding and every resolved prompt holds the reply to its own request |
| PiRpcClient.PoisonedSendsNothing | scripts/control-ui-i18n.ts:814-878 | After the first rejection no event sends a request or resolves a call |
| PiRpcClient.PoisonedForever | scripts/control-ui-i18n.ts:814-878 | However the run goes on, no further request is sent |
| PiRpcClient.TimerSettles | scripts/control-ui-i18n.ts:834-846 | The timer of the running call rejects it, ends the request and closes the client; the timer of any other call does nothing |
| PiRpcClient.WriteErrorSettles | scripts/control-ui-i18n.ts:863-873 | A failed write rejects the call whose request it was if that call is still running, and does nothing otherwise |
| PiRpcClient.ProcessEndSettles | scripts/control-ui-i18n.ts:738-764 | An error or the end of the process rejects the running call; only the end closes the client |
| PiRpcClient.ReadSettles | scripts/control-ui-i18n.ts:783-811 | The final line resolves the running call with its own text; an unusable final line or a failure response to its request rejects it; every other line leaves it running |
| PiRpcClient.IdleReadDrops | scripts/control-ui-i18n.ts:778-781 | A line that arrives while no call runs is dropped |
| PiRpcClient.LinkSettlesOrSends | scripts/control-ui-i18n.ts:815-861 | Once no call runs, the next link sends its request if all calls before it were resolved and the client is open, and else rejects its own call |
| PiRpcClient.NoPromptHangs | scripts/control-ui-i18n.ts:814-878 | From the state after any run, the client's own links and timers alone bring every call to its end |
| PiRpcClient.Drive | scripts/control-ui-i18n.ts:685-892 | The client object and its process taken through any list of calls, lines, timers, errors and closings: at most one of the object's calls runs, every resolved one holds the reply to its own request, and a poisoned object waits for nothing |
| PiRpcClient.DuplicateReplyGoesAstray | scripts/control-ui-i18n.ts:801-810 | With a process that may answer anything there is a run, in which request 1 is answered twice, after which the second prompt has resolved with the reply to the first |
| MemoryKeys.HashedKeysDistinct | scripts/control-ui-i18n.ts:230-249 | For hashes of 64 characters the memory keys of the strings are distinct and non-empty exactly when the hash confuses no two of the key texts it is applied to |
| MemoryKeys.KeyTextsDiffer | scripts/control-ui-i18n.ts:238-249 | Different strings have different key texts, whatever their hashes |
| MemoryKeys.SomeHashHasNoCollision | scripts/control-ui-i18n.ts:247-249 | There is a hash that confuses none of the key texts, for strings under keys of one character |
| MemoryKeys.SameTextIffSameWords | scripts/control-ui-i18n.ts:226-236 | Two texts are hashed alike exactly if they have the same words in the same order |
| MemoryKeys.KeyTextsTellFieldsApart | scripts/control-ui-i18n.ts:238-249 | Key texts agree exactly if provider, model, locale, string and text hash do, where the first three hold no bar and hashes are equally long |
| MemoryKeys.AmbiguousIffFieldTwice | scripts/control-ui-i18n.ts:238-245 | A provider and model share their namespace with another pair exactly if a bar and "model=" stand in a second place of their text |
| MemoryKeys.BarConfuses | scripts/control-ui-i18n.ts:238-249 | Two different translators, one with a bar in its provider and one in its model, have the same key texts |
| SyncDecision.SortKeysSorted | scripts/control-ui-i18n.ts:1144-1146 | The fallback list is sorted without repeats and has the same keys |
| SyncDecision.SortKeysOfSet | scripts/control-ui-i18n.ts:1144-1146 | The sorted list depends on the set of keys only |
| SyncDecision.PendingMeaning | scripts/control-ui-i18n.ts:1021-1050 | Pending are exactly the strings that neither memory nor the existing locale supplies, or whose fallback is to be refreshed |
| SyncDecision.RememberMeaning | scripts/control-ui-i18n.ts:1082-1101 | The new memory holds the translation of each translated pending string and is unchanged for all others |
| SyncDecision.FallbackKeysMeaning | scripts/control-ui-i18n.ts:1021-1128 | Fallback keys are source keys, and with a provider there are none |
| SyncDecision.WrittenReadsBack | scripts/control-ui-i18n.ts:1171-1217 | The written files read back as the run expected them and count as unchanged |
| SyncDecision.NextRunReuses | scripts/control-ui-i18n.ts:1021-1050 | The next run reuses every string with the value the first run chose |
| SyncDecision.NextRunNothingPending | scripts/control-ui-i18n.ts:1021-1050 | The next run has nothing pending and chooses the same strings |
| SyncDecision.NextRunSameFallbacks | scripts/control-ui-i18n.ts:1021-1146 | The next run finds the same fallback keys |
| SyncDecision.NextRunExpectsSame | scripts/control-ui-i18n.ts:1135-1177 | The next run expects the same four files, time stamp included |
| SyncMeaning.TextWithoutProvider | scripts/control-ui-i18n.ts:1021-1138 | Without a provider a string gets the text of the memory, else that of the existing locale, else the English one |
| SyncMeaning.TextWithProvider | scripts/control-ui-i18n.ts:1021-1138 | With a provider exactly the new strings and the former fallbacks get the translator's text; the others keep the memory's, else the existing one |
| SyncMeaning.FallbacksExactly | scripts/control-ui-i18n.ts:1021-1146 | The recorded fallbacks of a run without a provider are exactly the former ones and the new strings; a run with a provider records none |
| SyncMeaning.MetaExactly | scripts/control-ui-i18n.ts:1140-1169 | The meta file counts all strings and those that are no fallbacks, names the provider and model in use or else those of the last run, and keeps the last time stamp exactly if nothing else has changed |
| SyncMeaning.LoadExactly | scripts/control-ui-i18n.ts:376-395 | Of a memory file exactly the entries with a key and a text that is not blank are read |
| SyncMeaning.MemoryExactly | scripts/control-ui-i18n.ts:1082-1101 | Each translation is remembered with its key, text, hash, provider, model and time; every other entry stays as it was |
| SyncFixpoint.WrittenSyncIsFixpoint | scripts/control-ui-i18n.ts:996-1232 | After a write, a second run over the same source finds nothing pending and nothing changed, whatever the files held, whatever the translator answered, with or without a provider |
| SyncLocale.ReuseKnown | scripts/control-ui-i18n.ts:1021-1050 | The first pass collects exactly the reusable strings, the pending ones and the fallback keys carried over |
| SyncLocale.StoreBatch | scripts/control-ui-i18n.ts:1082-1101 | A translated batch goes into the strings and the memory, key by key and with the texts that the translator gave |
| SyncLocale.TranslatePending | scripts/control-ui-i18n.ts:1052-1105 | The pending strings go to the translator in the greedy batches, in order, until one fails; if none does, all are remembered |
| SyncLocale.FillLeftOver | scripts/control-ui-i18n.ts:1114-1128 | Each untranslated string gets its existing translation or its English text, and is recorded as a fallback in just those cases the code names |
| SyncLocale.PassesAgree | scripts/control-ui-i18n.ts:1021-1128 | The three passes together choose for every string what the declarative decision says |
| SyncLocale.Plan | scripts/control-ui-i18n.ts:1017-1177 | The passes together arrive at the expected files of the declarative decision |
| SyncLocale.Sync | scripts/control-ui-i18n.ts:996-1232 | A run fails exactly if the translator fails for one of its batches, and then touches no file; otherwise the strings are the translator's and the files become what was decided, if writing was asked for; outcome flags and counts are right |
| SyncLocale.SyncTwice | scripts/control-ui-i18n.ts:996-1232 | Two runs on the same files: once the first is done and was to write, the second is done, unchanged and writes nothing |
| SyncLocale.SyncScriptTwice | scripts/control-ui-i18n.ts:230-249 | The same with the script's own memory keys, over any hash that confuses none of the key texts of this source |
| SyncLocale.NoTranslationNeeded | scripts/control-ui-i18n.ts:1052-1112 | The second run has nothing to ask the translator |
| RecallCache.Cache.Set | extensions/active-memory/index.ts:946-962 | A set sweeps, moves its key to the end and evicts the oldest entries above 1000 |
| RecallCache.Cache.SweepExpired | extensions/active-memory/index.ts:964-970 | A sweep removes the expired entries and keeps the order of the rest |
| RecallCache.SweepMembers | extensions/active-memory/index.ts:964-970 | After a sweep exactly the unexpired entries are left |
| RecallCache.OldestCrowdedOut | extensions/active-memory/index.ts:955-961 | An evicted key has been followed by at least 1000 sets of other keys |
| RecallCache.SetRefines | extensions/active-memory/index.ts:946-962 | A set keeps the cache in step with the history of all sets |
| RecallCache.GetRefines | extensions/active-memory/index.ts:934-944 | A look-up answers by the history and keeps the cache in step with it |
| RecallCache.RunSound | extensions/active-memory/index.ts:934-970 | Over every run under a clock that does not go back, the cache agrees with the history |
| RecallCache.CacheIsSound | extensions/active-memory/index.ts:934-970 | Never more than 1000 entries; a hit is the latest value set and unexpired; a miss means never set, expired, or crowded out by 1000 other keys |
| RecallCache.SetContents | extensions/active-memory/index.ts:946-962 | After a set the new entry is the newest, all others are alive ones under other keys, and all of those unless the cache is full |
| RecallCache.GetContents | extensions/active-memory/index.ts:934-944 | A look-up removes the entry it finds expired and nothing else |
| RecallCache.SameKeyIffSameRecall | extensions/active-memory/index.ts:924-932 | Cache keys agree exactly for the same agent, session and hash, an absent session counting as "none"; agent ids hold no colon and hashes are equally long |
| ToggleLock.ReadAfterWrite | extensions/active-memory/index.ts:445-488 | A written store reads back as it was exactly when no session key is blank; no sessions are written as an empty object |
| ToggleLock.ReadExactly | extensions/active-memory/index.ts:445-477 | A session is read exactly if the file holds an object with its sessions and, under a key that is not blank, an object whose disabled is true; its time stamp is kept if it is a number |
| ToggleLock.StateFile.ReadToggleStore | extensions/active-memory/index.ts:445-477 | Reading takes the disabled sessions with non-blank keys and nothing from a missing or malformed file |
| ToggleLock.StateFile.SetSessionDisabled | extensions/active-memory/index.ts:509-525 | The locked task sets or deletes one session, or fails without a change |
| ToggleLock.NextKeepsLock | extensions/active-memory/index.ts:177-201 | Taking the lock's promise, leaving one's own, and resolving it after success or a throw keep: own promises are distinct and resolved exactly for calls that are done; each call awaits the promise of the call before it on its path; each path's lock holds the promise of its last call |
| ToggleLock.ChainFollowsCalls | extensions/active-memory/index.ts:180-185 | In every run a call awaits the promise of the call made before it on its path, which is not its own |
| ToggleLock.AwaitedMeansDone | extensions/active-memory/index.ts:185-190 | When the awaited promise is resolved, every earlier call on the path is done |
| ToggleLock.NextKeepsOrder | extensions/active-memory/index.ts:177-192 | So no step starts a task before everything earlier on its path is done |
| ToggleLock.SequentialCommit | extensions/active-memory/index.ts:515-524 | The rename of the running call appends its toggle to the sequential result |
| ToggleLock.NextKeepsFile | extensions/active-memory/index.ts:509-525 | Every step of every call keeps each file equal to the sequential result of its path, and what a running call has read equal to what its file holds |
| ToggleLock.RunKeepsInv | extensions/active-memory/index.ts:177-201 | The promise chain, the call order on each path and the sequential result of each file hold after every interleaving of calls on any paths |
| ToggleLock.NoUpdateIsLost | extensions/active-memory/index.ts:177-201 | Over every interleaving at most one task runs on a path, tasks run in call order even when some throw, and each file is the sequential result of the successful toggles of its path |
| ToggleLock.NoDeadlock | extensions/active-memory/index.ts:177-192 | While some call on a path is not done, a call on that path can move without throwing |
| ToggleLock.CallCommits | extensions/active-memory/index.ts:177-192 | A call whose turn it is and that meets no error applies its toggle to its file and ends with its promise resolved and nothing else changed |
| ToggleLock.CallFails | extensions/active-memory/index.ts:186-190 | A call that throws leaves all files alone and ends with its promise resolved |
| ToggleLock.EveryCallCanEnd | extensions/active-memory/index.ts:177-201 | From every state that calls can reach, steps without further calls or errors bring all of them to their end |
| ToggleLock.SessionFollowsLastToggle | extensions/active-memory/index.ts:509-525 | In the sequential result the entry of a session, time stamp included, is what the last toggle of its key has left |
| ToggleLock.CheckFollowsLastToggle | extensions/active-memory/index.ts:490-507 | In every run the unlocked check answers by the last committed toggle of the trimmed session key, and never for a blank one |
| PromptStrip.EscapeIsPerCharacter | extensions/active-memory/index.ts:1296-1303 | The five replacement passes equal one replacement per character, so nothing is escaped twice |
| PromptStrip.EscapedHasNoBracket | extensions/active-memory/index.ts:1296-1303 | Escaped text holds no opening angle bracket |
| PromptStrip.EscapedLinesDoNotClose | extensions/active-memory/index.ts:1499-1504 | No trimmed line of an escaped summary is the close tag |
| PromptStrip.TagsAreGood | extensions/active-memory/index.ts:226-230 | The plugin's header and tags are single trimmed lines and the close tag begins with an angle bracket |
| PromptStrip.PrefixText | extensions/active-memory/index.ts:1341-1358 | The prefix is the header, the open tag, the escaped summary and the close tag, one under the other; without a summary there is none |
| PromptStrip.StripInjectedPrefix | extensions/active-memory/index.ts:1486-1515 | The scanning loops compute the recursive description of stripping |
| PromptStrip.KeepLines | extensions/active-memory/index.ts:1488-1512 | The line loop drops blank lines and closed blocks and keeps the other lines in order |
| PromptStrip.Probe | extensions/active-memory/index.ts:1498-1504 | The inner loop finds the first close tag after the open tag, if there is one |
| PromptStrip.StripUndoesInjection | extensions/active-memory/index.ts:1352-1515 | For every non-empty summary and every message, stripping the prefixed message is stripping the message |
| PromptStrip.StripIdempotent | extensions/active-memory/index.ts:1486-1515 | Stripping twice is stripping once |
| PromptStrip.StripIsNormalizeIffNoBlock | extensions/active-memory/index.ts:1486-1515 | Stripping only normalizes white space exactly for messages in which no header and open tag are followed by a close tag |
| PromptStrip.OrdinaryMessageIsKept | extensions/active-memory/index.ts:1488-1515 | A message without the header line keeps all its words in order, with one space between them |
| PromptStrip.StripTakesOutTheBlock | extensions/active-memory/index.ts:1486-1515 | Wherever the injected block stands, the words before it and those that stripping keeps of the rest stay |
| PromptStrip.UnescapeUndoesEscape | extensions/active-memory/index.ts:1296-1303 | Escaped text, read with the five entities of XML, is the text that was escaped |
| Text.NormalizeIsWords | extensions/active-memory/index.ts:1514-1514 | Collapsing white space and trimming keeps the words in order and puts one space between them |
| NotifyKeys.ThreadKeyIffSameMeaning | extensions/device-pair/notify.ts:164-183 | Two threads have the same key exactly when both are absent, both spell the same integer, or both are the same name |
| NotifyKeys.SameTargetIffSameKey | extensions/device-pair/notify.ts:152-183 | Two targets have the same key exactly if address, account and meaning of the thread agree |
| Decimals.DecimalRoundTrip | extensions/device-pair/notify.ts:164-183 | Decimal notation of an integer reads back, so it is injective |
| PairNotify.Notifier.UpsertSubscriber | extensions/device-pair/notify.ts:213-235 | Adds a subscriber, switches its mode, or does nothing and says so |
| PairNotify.Notifier.NotifyPending | extensions/device-pair/notify.ts:314-375 | A poll forgets stale marks, sends to the willing subscribers, marks what was delivered and drops served one-shots |
| PairNotify.Notifier.NotifyRequest | extensions/device-pair/notify.ts:339-354 | One request goes to each subscriber that should hear of it, in order |
| PairNotify.Notifier.HandleNotifyCommand | extensions/device-pair/notify.ts:377-489 | On, off, once and status change the stored subscribers as the command says and nothing else |
| PairNotifyRuns.UpsertMembers | extensions/device-pair/notify.ts:213-235 | Keys stay distinct, only the given subscriber can be new, and nothing changes exactly when it was there in that mode |
| PairNotifyRuns.RoundMarks | extensions/device-pair/notify.ts:334-360 | A marked request is not announced and keeps its mark; an announced one is marked with the time of the poll |
| PairNotifyRuns.PollAnnounces | extensions/device-pair/notify.ts:325-360 | A poll announces a request exactly when it was not announced within the last 24 hours and sending it to some subscriber that should hear of it works |
| PairNotifyRuns.PollRemovesServedOneShots | extensions/device-pair/notify.ts:361-369 | A poll removes a subscriber exactly when it is one-shot and was sent a message; a persistent one is never removed |
| PairNotifyRuns.NextKeepsInv | extensions/device-pair/notify.ts:314-489 | Every poll and command keeps distinct keys and the log's account of armings and deliveries |
| PairNotifyRuns.RunKeepsInv | extensions/device-pair/notify.ts:314-489 | The invariant holds after every run from the empty state |
| PairNotifyRuns.OneShotsAreServedOnce | extensions/device-pair/notify.ts:266-375 | Over every run keys are distinct, a one-shot is served in at most one poll per arming, and only for requests no older than the arming |
| PairNotifyRuns.QuietDay | extensions/device-pair/notify.ts:325-360 | While a delivered request stays pending, no poll of the next 24 hours changes its mark |
| PairNotifyRuns.AnnouncementsADayApart | extensions/device-pair/notify.ts:325-360 | Two polls that announce a request pending all the time between are more than 24 hours apart |
| PairNotifyEffects.UpsertExactly | extensions/device-pair/notify.ts:213-235 | Subscribing leaves all others alone; under this key there is the new subscription, or the old one if it had that mode already |
| PairNotifyEffects.UnsubscribeExactly | extensions/device-pair/notify.ts:411-489 | Unsubscribing removes the subscriber under this key and no other |
| PairNotifyEffects.CommandExactly | extensions/device-pair/notify.ts:377-489 | On, once, off and status change who is subscribed as they say, subscriber by subscriber, and no mark |
| PairNotifyEffects.NormalizeExactly | extensions/device-pair/notify.ts:90-119 | A stored subscriber is read with its target trimmed, unless its address is blank |
| PairNotifyEffects.ReadStateIsClean | extensions/device-pair/notify.ts:83-135 | Whatever the file holds, what is read from it is trimmed, and written back reads the same |
| PairNotifyEffects.PollDeliversExactly | extensions/device-pair/notify.ts:325-360 | Of the requests with one id, not announced within a day, the first that reaches anyone goes exactly once to every subscriber that wants it and can be sent it |
| PairNotifyEffects.PollSendsNothingElse | extensions/device-pair/notify.ts:325-360 | Every message of a poll goes to a subscriber that wants it and is about such a request |
| PairNotifyEffects.PollMarksExactly | extensions/device-pair/notify.ts:325-360 | After a poll exactly the requests announced now, and those announced within a day and still pending, are marked, with the time of the announcement |
| MapConcurrent.TurnKeepsInv | scripts/update-clawtributors.ts:498-503 | Every turn of every worker keeps: calls in flight on distinct indices, results in place for the rest of the claimed ones |
| MapConcurrent.TurnUsesOne | scripts/update-clawtributors.ts:498-503 | Every turn of a worker that has not returned uses up exactly one of finitely many turns |
| MapConcurrent.ClaimedOnce | scripts/update-clawtributors.ts:499-501 | Over every schedule each index is claimed exactly once, in increasing order |
| MapConcurrent.ScheduleIsBounded | scripts/update-clawtributors.ts:498-504 | Over every schedule no more calls are in flight than the limit (at least one) and the number of items allow, on distinct indices, and every result there is the mapper's |
| MapConcurrent.LimitIsReached | scripts/update-clawtributors.ts:498-504 | Some schedule has as many calls in flight as limit and items allow |
| MapConcurrent.EveryScheduleEnds | scripts/update-clawtributors.ts:498-505 | Every schedule ends after exactly n turns plus one per worker, and then every result is the mapper's |
| MapConcurrent.MapConcurrent | scripts/update-clawtributors.ts:490-506 | With the workers run in arbitrary order the result is the sequential map |
| MapConcurrent.FilterVisibleEntries | scripts/update-clawtributors.ts:472-488 | The concurrent filter keeps exactly the entries without a name and those whose name is neither hidden nor one with the default avatar, each once and in order |
| JpegScan.ReadJpegDimensions | scripts/update-clawtributors.ts:546-590 | The loop stays within the buffer, always advances, and answers as the scan from offset 2 |
| JpegScan.StreamIsRead | scripts/update-clawtributors.ts:546-590 | From any offset: items and then a frame header give that header's width and height |
| JpegScan.AnswerHasStream | scripts/update-clawtributors.ts:546-590 | From any offset: an answer comes from a frame header of that size behind a run of items |
| JpegScan.ReadsExactlyTheStreams | scripts/update-clawtributors.ts:546-590 | A size is answered exactly when the buffer holds, after two bytes, items of the grammar and a frame header of that size with a byte to spare |
| JpegScan.JpegBegins | scripts/update-clawtributors.ts:542-544 | A buffer is taken for a JPEG image exactly if it begins with the start of image and holds two bytes more |
| JpegScan.ConformingImageIsRead | scripts/update-clawtributors.ts:542-590 | Start of image, standalone markers and segments with other markers than 0xC0-0xCF but for 0xC4, 0xC8 and 0xCC, then a frame header with one of these thirteen and at least one component: its width and height are returned |
| Utf16.Clamp | src/utils.ts:91-92 | The position of an index is the only one: the index itself, counted from the end if negative, or the end it lies beyond |
| Utf16.SliceUtf16Safe | src/utils.ts:88-115 | The slice is the largest part that cuts no surrogate pair of what lies between the positions of start and end, in either order, a missing end being the end of the string |
| Utf16.SafeSliceIs | src/utils.ts:88-115 | There is only one such part: what lies between the first and the last boundary of the range |
| Utf16.LargestWholeBounds | src/utils.ts:100-112 | At most one unit is lost at each end, exactly where the range cuts a pair |
| Utf16.SliceKeepsWholeCodePoints | src/utils.ts:88-115 | The slice decodes to a run of the input's code points; well-formed input gives well-formed output |
| Utf16.TruncateUtf16Safe | src/utils.ts:117-123 | A short string whole, else its first units up to the limit rounded down, or one fewer if that would cut a pair; nothing for a negative limit |
| Utf16.TruncationIsLongest | src/utils.ts:117-123 | Truncation keeps as many whole code points from the front as fit in the limit |
| Utf16.WellFormedIffScalar | src/utils.ts:80-86 | A string encodes scalar values exactly when decoding it meets no lone surrogate |
| SparkleBuild.ParsesExactlyTheWritten | scripts/sparkle-build.ts:12-20 | The version pattern matches exactly the written calendar versions, in one way only |
| SparkleBuild.ParsesByPattern | scripts/sparkle-build.ts:12-20 | A version is taken apart exactly as four digits, one or two, one or two, with dots between, and nothing or a dot or dash and the rest of the line |
| SparkleBuild.FloorsIffDated | scripts/sparkle-build.ts:14-35 | A version has floors exactly if it is a calendar version with a month from 1 to 12 and a day from 1 to 31 |
| SparkleBuild.Lane | scripts/sparkle-build.ts:40-49 | The lane is at most 90 and is 90 exactly for a version without suffix |
| SparkleBuild.LaneOfSuffix | scripts/sparkle-build.ts:40-49 | The lane of a suffix is the number it ends in, but at most 89, or 1 if it ends in no digit |
| SparkleBuild.EndDigits | scripts/sparkle-build.ts:43-43 | The digits at the end of the suffix, as many as there are |
| SparkleBuild.FloorsAreArithmetic | scripts/sparkle-build.ts:37-52 | The floors glued from padded strings are date, ten times date, and a hundred times date plus lane |
| SparkleBuild.CanonicalBuildsFollowReleases | scripts/sparkle-build.ts:37-57 | Canonical builds are ordered exactly as year, month, day and lane |
| Appcast.CollectVersions | scripts/release-check.ts:322-355 | The first loop collects the errors of missing or malformed builds and the calendar-versioned releases, in order |
| Appcast.Earliest | scripts/release-check.ts:357-360 | The first date after sorting is the earliest |
| Appcast.CollectAppcastErrors | scripts/release-check.ts:322-379 | The two loops report exactly the missing, malformed and too low builds, in order |
| AppcastReport.ReleasesExactly | scripts/release-check.ts:333-355 | The releases are those of the entries with a build and a dated calendar version, each once and in order, with title, build and floors |
| AppcastReport.CutoverIs | scripts/release-check.ts:357-364 | The cutover is the date of the earliest build from 1000000000 on, or 2026-02-27 if that is earlier or there is none |
| AppcastReport.ReportExactly | scripts/release-check.ts:322-379 | The report is one error for an empty feed, or one for each entry without a build and then one for each release below its floor, in order and with title, version, build, kind and floor |
| Appcast.EffectiveIsLatest | scripts/release-check.ts:357-364 | The cutover worked out is never before one that the feed respects |
| Appcast.AcceptedIffCutover | scripts/release-check.ts:322-379 | No error exactly if there is an entry, every entry has a build, and some cutover up to 2026-02-27 has legacy builds before it and lane builds from it on |
| Appcast.SeparatedIffLateYear | scripts/release-check.ts:357-376 | A cutover separates the builds of an earlier and a later date, whatever builds it allows them, exactly when the later date is in the year 1000 or after |
| Appcast.CutoverSeparatesBuilds | scripts/release-check.ts:357-376 | In an accepted feed with releases from the year 1000 on, every build before the cutover is below 10^9 and every build after it is not |
| Appcast.FinalsAreAnnounced | scripts/release-check.ts:333-355 | Any list of final releases, written as versions and builds, is a feed of entries that announces exactly those releases |
| Appcast.EarlyYearsCanMix | scripts/release-check.ts:322-379 | A feed of four entries from 0099.1.1 to 0100.1.2 is accepted, and an older release has the higher build under every cutover it respects |

## Left out

- ImportCycles.CollectStronglyConnectedComponents: the final sorts by size and name fix the order of the report only; the components are proved as sets without repeats, and the witness is proved for any order of their members.
- TranslationTree.FlattenTranslations: objects are maps without key order; keys are visited in any order and the flat map is the same. The order in which the sync handles the strings is a parameter of `SyncDecision`.
- TranslationObject.TranslationMap.SetNestedValue: the loop that moves the cursor is written as a method that goes on with the object the cursor moves to. Keys that name members of `Object.prototype`, such as `constructor` or `__proto__`, are ordinary keys here.
- SyncLocale.Sync: rendering, formatting and parsing of the four files are taken to be mutually inverse, so a file is modelled by what it holds and whether its text is the rendered one; reads and writes of a file are atomic; the run with neither check nor write asked for returns the same outcome early and is covered by the same clauses.
- SyncFixpoint.WrittenSyncIsFixpoint: needs source keys that survive flattening (the exact condition is `TranslationTree.RebuildFlattenIffFlattenable`) and distinct memory keys (exactly: no collision among the key texts, `MemoryKeys.HashedKeysDistinct`).
- TranslateBatch.TranslateItems: labels, delays and the creation and closing of clients are not modelled; a prompt is an oracle that answers, times out or fails.
- PiRpcClient.RunKeepsInv: timers, writes and process events are nondeterministic steps; heartbeats and stderr only affect log lines.
- RecallCache.CacheIsSound: keys are any non-empty strings; that the hash separates queries is not proved.
- RecallCache.SameKeyIffSameRecall: agent ids hold no colon; normalized ones (src/routing/session-key.ts:91-108) never do.
- MemoryKeys.KeyTextsTellFieldsApart: all five fields at once are told apart only where provider, model and locale hold no bar; locales are names from a fixed list.
- ToggleLock.NoUpdateIsLost: temporary files cannot clash, and calls from other processes, which share no lock, are not modelled.
- ToggleLock.SessionFollowsLastToggle: the session key `__proto__`, which assignment into a plain object loses, is an ordinary key here.
- Strings outside `Utf16` are sequences of Dafny characters, which exclude surrogates; text with lone surrogates is not modelled there, and a character beyond the basic plane counts once where the code counts two units.
- PairNotifyRuns.OneShotsAreServedOnce: a poll or a command is one atomic step, as no lock is taken; addresses, account ids, threads and request ids are taken to be trimmed, and a stored request id that is not is dropped where the code would trim it; times and numeric threads are whole numbers.
- PairNotify.Notifier.UpsertSubscriber: the list, read from the file for each command, is returned rather than changed in place.
- MapConcurrent.MapConcurrent: the mapper is a function that does not fail; the look-ups behind it are parameters.
- JpegScan.ReadJpegDimensions: a fill byte before a marker is not treated as padding: the scanner takes the second 0xFF for a marker of its own, and so does the grammar. The PNG reader is not modelled.
- Utf16.SliceUtf16Safe: indices are integers; fractional or NaN arguments are not modelled.
- SparkleBuild.FloorsAreArithmetic: numbers are exact; build numbers above 2^53 would lose digits in the code.
- Appcast.CollectAppcastErrors: starts from the text of the tags; extracting them from XML is not modelled.
- The source walk and module resolution of the import check, prompt texts, log lines, argument and environment reading, and command replies are textual or input/output.
- `stripRecalledContextNoise` joins lines and can create a new match, so it has no clean round trip to prove.
- The memory store and its embeddings, and the channel entry files, delegate to code that is not part of this model.
