# Verified model of the lingzhou runtime core

lingzhou is an agent runtime: a language model works through tools, keeps a working memory and a task history, and
may rewrite its own tools. This project models, in Dafny, the parts of it in which state is changed by rules that can
be stated exactly, and proves what those rules guarantee over every input and every run.

- **Text tools.** `Wrappers`, `Text`, `FuzzyFind`, `FileEdit`, `FileRead`, `ReadTail`: matching and splicing edits,
  windows on a file and the parameters that ask for the rest of it, and the backward block scan of a log file.
- **Working memory.** `Heap`, `WorkingMemory`: the binary heap, replacement by kind, the two eviction limits and the
  salience filter.
- **Stored values and the model catalog.** `Compact`, `ModelsGen`, `ModelsCache`: size-bounding of nested values, the
  recursive merge of the user's providers into the built-in catalog, and the fingerprint cache in front of the file.
- **Self-modification.** `Breaker`, `Evolution`, `Rollback`, `EvolutionRun`, `Cooldown`, `Ethos`: the rewriting
  transaction with its backup, verification and rollback, the failure breaker, whole passes of the engine and the
  cooldowns they respect, and the drift of the value baseline. Files, backups and facts are state; what the language
  model, the smoke test, the reload and the parse of the tree answer is arbitrary input.
- **Task completion.** `Cortex`, `CompletionGate`, `AutoWorkbench`: what a task has promised to verify, the gates in
  front of `done`, and the lists and failure streak kept of its runs.

Code that changes things step by step is a method or a class with loops, proved against a specification function or
predicate; the properties are proved about that specification. `dafny verify dfyconfig.toml` covers the whole project.

## Where the code differs from what one would expect

These are results of the proofs. Each is stated as a lemma or a method's contract, where possible with the exact
condition under which the code does meet the expectation.

- A tolerant match in `file.edit` replaces a region as long as the requested text, whatever the matched lines' length.
  It begins at the first of them, the file being read in text mode, and is exactly those lines when the requested text
  is as long as they are, or longer while they end the text (`FileEdit.TolerantRegionExactly`). It can end too early
  (`FileEdit.TolerantRegionFallsShort`) or take the newline behind them along (`FileEdit.TolerantRegionOvershoots`).
- An edit rewrites every line ending of its file to `\n` (`FileEdit.LineEndingsRewritten`).
- Following `next_params` of `file.read` moves on exactly when the start lies inside the text
  (`FileRead.ContinueAdvances`), never without room for a character (`FileRead.NoRoomNoProgress`), and leaves a line
  window when a character range was named beside it (`FileRead.LineWindowRecovered`).
- `_read_tail` with `n = 0` returns lines (`ReadTail.ReadTail`).
- Compacting a stored value twice equals compacting it once exactly on the values of `Compact.Stable`
  (`Compact.IdempotentExactly`): also for mappings of 81 keys, and for longer ones whose first 80 keys include the
  omission marker's own.
- A breaker record is looked up by key prefix, newest first, so a newer record of a tool whose name extends another's
  hides the other's cooldown (`Breaker.LoadsStoredExactly`, `Breaker.ExtensionHidesCooldown`). For which names the
  shared table works as separate breakers is `Breaker.IsolationExactly`.
- So a tool can be rewritten under its own live cooldown, at the default settings too: `t` when a tool `tx` has failed
  since (`Cooldown.ExtendingName`, `Cooldown.IgnoredAtTwo`). That is ruled out exactly when no tool's query finds
  another's record (`Cooldown.OwnCooldownKeptExactly`, `Cooldown.OwnCooldownExactly`). The global cooldown can be
  ignored exactly at an escalation threshold of two with backups, if the global query finds the record of one of two or
  more tools (`Cooldown.GlobalCooldownExactly`).
- Every pass of the engine clears a target's streak before rewriting it, so the streaks that occur go up to two with
  backups and to one without (`EvolutionRun.StreaksReachedExactly`). The global breaker can open exactly when the
  escalation threshold is within that limit, hence never at its default of three
  (`EvolutionRun.GlobalBreakerOpensExactly`).
- A promotion that fails after its reload leaves the candidate in place (`Evolution.FailedPromotion`), and one further
  attempt on a file is enough to lose the source a rollback should restore (`Rollback.FurtherAttemptLosesOriginal`).
- The completion gate looks at twelve runs and forgets older promises (`CompletionGate.GateForgets`). `task.update` and
  `task.resume` reach `done` without it (`CompletionGate.DoneExactly`); where none asks for that and no completion is
  forced, a task that got done went past the gates (`CompletionGate.FairlyDoneIsGated`).
- The guard that keeps `task.update` from taking a waiting task back to an active status is passed by way of any third
  status (`CompletionGate.WaitingGuardExactly`).
- The workbench takes the control mark off the goal of an explicit verification state, so a state that reads as settled
  reads as pending once it is written (`Cortex.ControlMarkLost`); when writing leaves the reading as it was is
  `Cortex.WritingKeepsReadingExactly`.

## Model

| member | source | states |
|---|---|---|
| ReadTail.ReadTail | cli/logs.py:228-251 | The backward block scan returns, for n >= 1, exactly the last n lines of the whole file; for n = 0 some lines of any non-empty file; for n < 0 none |
| ReadTail.SuffixIsEnough | cli/logs.py:241-251 | A suffix with more than n newlines has the same last n lines as the whole file, which is why the scan may stop |
| ReadTail.BlockInFront | cli/logs.py:241-249 | Each block keeps the reversed join equal to the file's suffix and the count equal to that suffix's newlines |
| ReadTail.TailLines | cli/logs.py:249-251 | What the negative slice keeps once reading has stopped, for positive, zero and negative n |
| FuzzyFind.FuzzyFind | tools/file_helpers.py:79-112 | The result is the exact occurrence, else the start of the first line at which the trimmed target lines equal the stripped content lines, and -1 exactly when there is no such line |
| FuzzyFind.SearchLines | tools/file_helpers.py:103-112 | The nested loops find the first matching line, and -1 exactly when none matches |
| FuzzyFind.TrimBlankEnds | tools/file_helpers.py:96-99 | The two popping loops remove the blank lines at both ends and nothing else |
| FuzzyFind.LineStartIsOffset | tools/file_helpers.py:110 | The summed lengths are a line start of the normalised text, and what follows splits into the lines from there on |
| FuzzyFind.PositionInText | tools/file_helpers.py:79-112 | The result is -1 or an offset within the original content, although it is computed on the normalised one |
| FuzzyFind.CutExactly | tools/file_helpers.py:79-112 | An offset of the normalised text has exactly one place in the original: nothing cuts between `\r` and `\n` |
| FuzzyFind.OffsetsAgree | tools/file_helpers.py:79-112 | Offset and place agree if and only if no `\r\n` comes before |
| FuzzyFind.OriginalLines | tools/file_helpers.py:103-110 | What the original has at the place of the matched lines reads, once normalised, as those lines |
| FuzzyFind.PositionIsLineExactly | tools/file_helpers.py:79-112 | The tolerant search returns the place of the matched line in the content it was given if and only if no `\r\n` comes before that line |
| FileEdit.FileEdit | tools/file.py:558-655 | Edits are carried out exactly when the list is non-empty, every text can be located, no two regions overlap, the result differs and parses; then every text stands at one place only, or at none while its lines do; the result is the simultaneous substitution; each error is reported exactly when its check is the first to fail |
| FileEdit.MatchEdits | tools/file.py:558-621 | The matching loop yields every edit's region in the original, or the error of the first edit that does not match |
| FileEdit.MatchOne | tools/file.py:559-621 | One edit is matched against the original by exact search, then tolerant search, then the uniqueness check |
| FileEdit.MatchExactly | tools/file.py:559-621 | By the places at which a text stands: it is empty, stands at two, or neither it nor its lines stand anywhere, and these are the three errors; otherwise the edit matches |
| FileEdit.RepeatedBeyond | tools/file.py:605-614 | A text stands at two places if and only if it stands at one beyond the first |
| FileEdit.RegionExactly | tools/file.py:570-621 | The region of a matched edit is the only place of its text, or starts at the first of the matching lines |
| FileEdit.ErrorsExactly | tools/file.py:558-621 | The error reported is that of the first edit whose text cannot be located |
| FileEdit.NeighboursSuffice | tools/file.py:623-633 | Comparing neighbours after sorting finds a collision if and only if some two regions have a character in common |
| FileEdit.SpliceFromBack | tools/file.py:635-641 | Splicing sorted, non-overlapping regions from the back gives the untouched gaps interleaved with the new texts |
| FileEdit.SpliceStep | tools/file.py:635-638 | One splice in front of an already substituted tail extends the substitution by one region |
| FileEdit.OrderIrrelevant | tools/file.py:566-655 | Acceptance and result are the same for every permutation of the edit list |
| FileEdit.SortSorts | tools/file.py:623 | Sorting by start orders the matched regions and keeps them all |
| FileEdit.SortedUnique | tools/file.py:623-633 | With distinct starts there is only one sorted order of the same regions |
| FileEdit.ExactEditsLength | tools/file.py:616-641 | Exactly found edits that lie apart change the length by the sum of their differences |
| FileEdit.InterleaveLength | tools/file.py:635-641 | The substituted text is as long as the original plus the growth of the regions |
| FileEdit.NewTextPlaced | tools/file.py:635-641 | Every new text stands in the result at its region's start moved by the growth of the regions before it |
| FileEdit.UntouchedPlaced | tools/file.py:635-641 | Everything outside the regions stands in the result too, moved in the same way |
| FileEdit.TolerantRegionExactly | tools/file.py:553-638 | In a text as read, a tolerant match begins at the first matched line; the edit replaces exactly the matched lines if and only if the requested text is as long as they are, or longer while they end the text |
| FileEdit.EditFile | tools/file.py:553-655 | The file is left with the substitution in the text as read, exactly when the edits are accepted, and otherwise as it was; a text that stands at two places is never replaced |
| FileEdit.LineEndingsRewritten | tools/file.py:553-655 | Whatever the file held, a `\r` in what is saved comes from some newText |
| FileEdit.SingleEdit | tools/file.py:605-638 | A lone matched edit is one splice at its position |
| FileEdit.TolerantRegionFallsShort | tools/file.py:570-638 | A concrete tolerant match of indented lines: the region ends before they do, so a piece of them stays behind |
| FileEdit.TolerantRegionOvershoots | tools/file.py:570-638 | A concrete tolerant match with a `\r` in the requested text: the region takes the newline behind the matched lines along |
| FileRead.ReadFile | tools/file.py:170-239 | The page is the requested window, cut to max_chars with the parameters for the rest exactly when it is longer |
| FileRead.RangeShown | tools/file.py:170-239 | By index: a read without a line range shows the characters from the start to the end asked for, negative bounds counting from the end, and at most max_chars of them |
| FileRead.LinesSelected | tools/file.py:349-354 | By index: a line window has the lines from the offset on, up to the limit, a negative end counting from the last line |
| FileRead.ContinueAdvances | tools/file.py:200-203 | The next page's window is what the current page left unread if and only if the start is not before the text's beginning |
| FileRead.PagesRebuild | tools/file.py:200-239 | Following next_params ends, each page is within max_chars, and the pages concatenate to the window |
| FileRead.UnrangedPagesRebuildText | tools/file.py:227-239 | From an unranged read with room for a character the pages concatenate to the whole text |
| FileRead.NoRoomNoProgress | tools/file.py:186-203 | With max_chars = 0 the next page asks for the same window again |
| FileRead.LineWindowRecovered | tools/file.py:200-218 | A cut line window is handed back whole if and only if no character range was named beside it |
| FileRead.NextOffsetAdvances | tools/file.py:352-366 | Following next_offset moves on if and only if limit > 0 |
| FileRead.PageShowsSelected | tools/file.py:351-384 | A page that is not clipped shows exactly the selected lines below its header |
| FileRead.CollectedIsRest | tools/file.py:351-384 | Following next_offset through pages that are not clipped, the lines of their texts below the headers are every line from the offset on, exactly once and in order |
| FileRead.LinePagesRestoreText | tools/file.py:351-384 | From the first line on, the lines collected from the page texts, joined by newlines, are the text |
| Heap.SiftDown | memory/working.py:134 | The rising loop of a push restores heap order and keeps the items |
| Heap.SiftUp | memory/working.py:137 | Sinking an item to a leaf and letting it rise again restores heap order and keeps the items |
| Heap.Push | memory/working.py:134 | A push keeps heap order and adds exactly the new item |
| Heap.Pop | memory/working.py:137-141 | A pop keeps heap order and removes exactly one item, of lowest priority |
| Heap.Heapify | memory/working.py:112-114 | Any list becomes a heap of the same items |
| Heap.RootIsLowest | memory/working.py:68-78 | The root of a heap has the lowest priority |
| WorkingMemory.WorkingMemory.constructor | memory/working.py:103-110 | A new memory is empty, valid, and has the given limits |
| WorkingMemory.WorkingMemory.Add | memory/working.py:128-141 | Heap order, both limits and one item per kind are kept; the survivors are a top-priority selection of the old items without the replaced kind plus the new one, and the last item evicted could not have stayed |
| WorkingMemory.EvictionUnique | memory/working.py:134-141 | With distinct priorities this description of the survivors leaves exactly one possibility |
| WorkingMemory.EvictOne | memory/working.py:136-141 | Popping a lowest item keeps the remaining items a top selection and was needed |
| WorkingMemory.CandidatesKeepKinds | memory/working.py:132-134 | Replacing by kind before the push keeps at most one item of each single-item kind |
| WorkingMemory.CandidatesExactly | memory/working.py:132-134 | How often each item is a candidate: nothing goes but the items of the single-item kind the new one shares, and the new one is added |
| WorkingMemory.TokensCounted | memory/working.py:27-33 | The estimate by the numbers of CJK, other printable ASCII and remaining characters |
| WorkingMemory.FitsMonotone | memory/working.py:136-141 | Fewer items never violate a limit that more items met |
| WorkingMemory.SumMonotone | memory/working.py:116-119 | The token total of a smaller collection is no larger, whatever the heap's order |
| WorkingMemory.WorkingMemory.ReplaceItems | memory/working.py:112-114 | The stored list becomes a heap of exactly the given items |
| WorkingMemory.WorkingMemory.Clear | memory/working.py:150-158 | What is kept: the preserved kinds if any are named, else all but the named kinds, else nothing; the invariants hold |
| WorkingMemory.WorkingMemory.SalienceGate | memory/working.py:160-200 | How often each item is there afterwards: spared ones as before, relevant ones with the boost and at most 1; dropped is the number of the others; the invariants hold |
| WorkingMemory.GateExactly | memory/working.py:179-197 | The filter keeps each item as often as it was spared, or became that item by the boost |
| WorkingMemory.GateDropsExactly | memory/working.py:179-200 | What it drops is as many as were neither spared nor relevant |
| WorkingMemory.GateNeverLowers | memory/working.py:179-197 | A kept item does not lose priority if and only if it was spared, or is at most 1 and the boost is not negative |
| WorkingMemory.GateAllRaises | memory/working.py:179-197 | For floor <= 1 and boost >= 0 every kept item is an old one with its priority possibly raised |
| WorkingMemory.GateAllWeighs | memory/working.py:179-197 | The filter increases neither the number of items nor any total that ignores priorities |
| WorkingMemory.GateKeepsLimits | memory/working.py:160-200 | The filter keeps the limits and the one-item-per-kind rule |
| Compact.CutTextLength | store/compact.py:19-28 | Cut text has exactly the limit's length, and one character more when the marker leaves room for exactly one |
| Compact.CutTextShape | store/compact.py:21-28 | With two characters of room or more, cut text is a prefix of the original, the marker, and a suffix of the original |
| Compact.StoredTextBounded | store/compact.py:12-28 | Text at the runtime limit is never longer than the limit |
| Compact.CompactRuntimeValue | store/compact.py:31-69 | The recursive compaction computes the specification function, and gives back a string-keyed value as it was if and only if it is small |
| Compact.CompactDict | store/compact.py:34-44 | The mapping branch, with its omission count, computes the specification function |
| Compact.CompactFirst | store/compact.py:37-40 | The loop over the first entries puts each compacted value under the string form of its key |
| Compact.CompactList | store/compact.py:45-68 | The list branch, with its head and tail counts, computes the specification function |
| Compact.CompactBounded | store/compact.py:31-69 | For every input the output has lists of at most 80, mappings of at most 81, strings within the limit and nesting of at most 9 |
| Compact.UnchangedExactly | store/compact.py:31-69 | A string-keyed value comes back as it was if and only if its strings are within the limit, its lists and mappings have at most 80 items and its containers lie above the depth limit, or a mapping of 81 ends in the count of one |
| Compact.LongTextCut | store/compact.py:21-28 | Text beyond the limit becomes its beginning, the marker and its end, of just the limit's length |
| Compact.PreviewAtLimit | store/compact.py:35-47 | At the depth limit a container is replaced by its preview, cut exactly if that is too long |
| Compact.ShortListKept | store/compact.py:48-53 | A list that is not cut has every item at its index, compacted |
| Compact.DictKept | store/compact.py:37-44 | The first 80 entries of a mapping stand in their places under their own keys, compacted; the count of the others follows, or takes the place of the entry with its key |
| Compact.CutListAccounts | store/compact.py:48-68 | A cut list is 39 compacted items from the front, the count, and 40 from the back, and head, tail and count add up to the original length |
| Compact.IdempotentExactly | store/compact.py:31-69 | On every string-keyed value compacting twice equals compacting once if and only if the value is stable: no cut list one level above the depth limit, and every mapping's omission count settles |
| Compact.DictIdempotence | store/compact.py:34-44 | A mapping settles if and only if its count does and every entry that survives does |
| Compact.CutListIdempotence | store/compact.py:50-68 | A cut list settles if and only if it lies above the last level and its kept items settle |
| Compact.CountAppended | store/compact.py:39-43 | More than 80 keys without the marker among the first 80: settled only with exactly 81 keys |
| Compact.CountOverwrites | store/compact.py:39-43 | With the marker's own key among the first 80 the count takes its place, and settles |
| ModelsGen.DeepMergeDict | provider/models_gen.py:55-61 | The loop over the patch computes the recursive right-biased merge |
| ModelsGen.LookupMerged | provider/models_gen.py:55-61 | For every path: the patch's value wins (merged with the target's if both are objects), nothing is left below a patched leaf, and every other path reads as in the target |
| ModelsGen.MergedIdempotent | provider/models_gen.py:55-61 | Applying a patch twice is applying it once |
| ModelsGen.IndexModels | provider/models_gen.py:97-99 | The index holds exactly the non-empty ids, each at the last model that has it |
| ModelsGen.MergeCustomModels | provider/models_gen.py:96-111 | For every list of models: each one with the patches filed under the id it is reached by, repeated ids being reached at their last model, then every new id once |
| ModelsGen.NewIdsProperties | provider/models_gen.py:103-111 | New ids are listed once each, and are exactly the trimmed non-empty ids no built-in model has |
| ModelsGen.ReferenceId | provider/models_gen.py:106-111 | Merging never changes the trimmed id of a model |
| ModelsGen.ReferenceUnique | provider/models_gen.py:96-111 | Trimmed ids are unique after merging if and only if the built-in ones were and none of them turns up among the new ones, which trimmed built-in ids rule out |
| ModelsGen.CatalogKeepsBuiltin | provider/models_gen.py:114-147 | Every public built-in provider survives with all its models, in place and under the same trimmed id; the id with its blanks is kept if and only if no configured model is filed under it, or the last one that is spells it the same |
| ModelsGen.CatalogFields | provider/models_gen.py:114-147 | Which providers the catalog has, and where each field but the models comes from: the configuration for the four connection fields it names, else the built-in entry |
| ModelsGen.CatalogIdsUnique | provider/models_gen.py:114-147 | In every provider of the merged catalog ids are unique |
| ModelsCache.ModelsJson.RememberReadyFingerprint | provider/models_gen.py:48-52 | The entry moves to the end and the oldest entries beyond 32 are dropped |
| ModelsCache.ModelsJson.EnsureModelsJson | provider/models_gen.py:158-210 | Every call leaves the disk that regenerating would leave, and writes exactly when the file was not current |
| ModelsCache.RememberKeeps | provider/models_gen.py:48-52 | The cache keeps its limit and one entry per target, and gains nothing but the new entry |
| ModelsCache.HitMeansCurrent | provider/models_gen.py:184-187 | A skip happens only when the disk holds what regenerating would write |
| ModelsCache.StepRefines | provider/models_gen.py:184-210 | One cached call does to the disk what regenerating does and keeps the cache truthful |
| ModelsCache.CacheIsInvisible | provider/models_gen.py:158-210 | Over every sequence of calls on any targets the disk is the one that always regenerating leaves |
| ModelsCache.StepWithForeignWrites | provider/models_gen.py:184-210 | When others write the file, a call brings it up to date if and only if the cache misses or the file was current |
| Breaker.BreakerFacts.IsGlobalBreakerCoolingDown | core/evolution/breaker.py:48-57 | Open exactly under a live cooldown that is found; otherwise the record is deleted |
| Breaker.BreakerFacts.IsTargetBreakerCoolingDown | core/evolution/breaker.py:60-70 | Open exactly under a live cooldown that is found; otherwise the whole record, streak included, is deleted |
| Breaker.BreakerFacts.UpdateTargetBreakerState | core/evolution/breaker.py:73-125 | Success deletes the record; failure extends the streak, sets the cooldown from the threshold on, and escalates |
| Breaker.LoadsStoredExactly | core/evolution/breaker.py:34-45 | Loading finds what is stored if and only if the newest key the prefix query matches is the key itself, or nothing is stored |
| Breaker.ExtensionHidesCooldown | core/evolution/breaker.py:34-70 | A failure of a target whose name extends another's hides the other's record, which the next check deletes |
| Breaker.LikeExtension | store/task/fact.py:37-43 | The prefix query for a key matches every extension of it |
| Breaker.KeysStayOver | core/evolution/breaker.py:48-125 | Only the global key and keys of used targets are ever stored |
| Breaker.Isolation | core/evolution/breaker.py:34-125 | Where the names are separate the shared table is, in every run, a separate breaker per target and one global one |
| Breaker.IsolationExactly | core/evolution/breaker.py:34-125 | That is so in every run if and only if no name's query finds another record and, unless every failure escalates, the global query finds no name's |
| Breaker.IsolationStep | core/evolution/breaker.py:48-125 | What each event does to the record under any one key |
| Breaker.StreakCountsFailures | core/evolution/breaker.py:60-104 | The streak is the number of failed updates since the last success or check that found no live cooldown |
| Breaker.SomewhereCleared | core/evolution/breaker.py:60-85 | Every history has a last clearing event, or none, so that count is defined for all of them |
| Breaker.CooldownNeedsStreak | core/evolution/breaker.py:88-104 | A positive cooldown implies a streak at the threshold, and ends one cooldown after the failure that set it |
| Breaker.GlobalNeedsStreak | core/evolution/breaker.py:106-119 | A global record goes back to a failed update that brought a streak to the escalation threshold |
| Evolution.EvolutionEngine.MakeAttempt | core/evolution/tool.py:165-246 | What one pass of the retry loop leaves in files, backups and facts for every combination of outcomes: the new source stays exactly when it compiled, passed smoke, was registered on reload, left the tree parsing, and was recorded and noted |
| Evolution.EvolutionEngine.EvolveTool | core/evolution/tool.py:128-250 | Success exactly when some attempt that was made compiled, passed smoke, reloaded under its name, left the tree parsing and was recorded and noted; then one file holds its source; on failure every file is as on entry |
| Evolution.Decisive | core/evolution/tool.py:165-250 | Every attempt before the deciding one ended in a retry, the deciding one does not |
| Evolution.MadeExactly | core/evolution/tool.py:165-250 | An attempt is made if and only if all before it had a syntax fault, failed smoke, or were taken back because some file no longer parsed |
| Evolution.EvolvedExactly | core/evolution/tool.py:128-250 | Files and verification records after a rewrite, by the outcomes of the attempt that ends it |
| Evolution.AllTakenBack | core/evolution/tool.py:248-250 | When every attempt was taken back, nothing changed but the backup |
| Evolution.BackedUpExactly | core/evolution/tool.py:171-175 | The backup holds the source on entry once an attempt that was made had compiled |
| Evolution.EvolutionEngine.PromoteCandidate | core/evolution/tool.py:387-442 | What a promotion leaves behind for every outcome of reload, record and dream update |
| Evolution.FailedPromotion | core/evolution/tool.py:406-441 | A failed promotion restores the files if and only if the file existed and the reload failed, or the candidate was already there |
| Evolution.EvolutionEngine.CompetitiveEvolveTool | core/evolution/tool.py:364-384 | The promoted candidate is the earliest of highest score among those that pass; with none the ordinary rewrite is tried |
| Evolution.Best | core/evolution/tool.py:364-378 | The chosen index has the highest score, the earliest of equals, and is -1 exactly when no candidate passes |
| Evolution.EvolutionEngine.GatherMetrics | core/evolution/smoke.py:194-227 | The counters are the failures, runs and successes of the target since the given time |
| Evolution.VerdictExactly | core/evolution/types.py:53-69 | By the recorded rows: undecided with too few runs, regressed if and only if there are enough runs, none a success, some failure, and a failure rate no lower than before |
| Evolution.EvolutionEngine.ProcessPendingVerifications | core/evolution/smoke.py:256-319 | The loop settles the newest fifty records one after the other, ending early only when a reload raises |
| Rollback.RecordLife | core/evolution/smoke.py:256-319 | A pass removes exactly the records it reached and found settled; pending ones, and those from a raising reload on, stay |
| Rollback.RecordKeptExactly | core/evolution/smoke.py:277-279 | A record the pass comes to stays if and only if too few runs of its target were recorded since |
| Rollback.FailureCountedExactly | core/evolution/smoke.py:280-311 | A record adds a failure to the breaker exactly when it is condemned by those rows, nothing while undecided, and otherwise a success |
| Rollback.FileAfterPass | core/evolution/smoke.py:292-303 | After a pass a file holds its backup exactly if a condemned record the pass came to names it, and otherwise what it held before |
| Rollback.SuccessSpares | core/evolution/types.py:65-69 | One success of the tool since its rewrite keeps the pass from touching the file on that record's account |
| Rollback.RecordLifeOverRun | core/evolution/smoke.py:230-319 | Over any sequence of rewrites, promotions and passes a record survives exactly as long as none replaces it and each pass leaves it unreached or still pending |
| Rollback.BackupIsLastBackedUp | core/evolution/tool.py:171-175 | Over any sequence of operations the backup holds the source in place when the last attempt to back up that file began |
| Rollback.RolledBack | core/evolution/smoke.py:292-303 | The file of a record that a pass rolls back holds its backup when the whole pass ends, even if the reload raises |
| Rollback.RollbackRestores | core/evolution/smoke.py:256-319 | After the pass the file holds exactly the source in place when the last attempt on it began |
| Rollback.QuietRollbackUndoes | core/evolution/smoke.py:256-319 | Without another attempt on the file in between, a rewrite that regresses is undone exactly: after the whole pass the file is back at its source before the rewrite |
| Rollback.QuietRollbackUndoesPromotion | core/evolution/tool.py:399-406 | The same for a promoted candidate |
| Rollback.FurtherAttemptLosesOriginal | core/evolution/tool.py:171-175 | One further failed attempt on the file makes the pass restore the regressed source |
| EvolutionRun.Run | core/evolution/__init__.py:234-362 | One pass of the engine, with its checks, its scan and its choice, computes the specified pass |
| EvolutionRun.Choose | core/evolution/tool.py:59-125 | Whatever the model answers, a chosen target is one of the candidates: the one it named, else the first, or none if it declined |
| EvolutionRun.EndsExactly | core/evolution/__init__.py:234-362 | Each way a pass ends, by what it was told, the obstacles in their order |
| EvolutionRun.RewriteExactly | core/evolution/__init__.py:344-351 | Which rewrite a pass makes: the best passing candidate where there is one to compete, else the attempts at the tool's own file |
| EvolutionRun.SettledSafe | core/evolution/smoke.py:280-318 | Settling a record keeps every streak, plus one while a verdict is due, within the limit |
| EvolutionRun.RewriteSafe | core/evolution/__init__.py:344-356 | So does a rewrite started after the check that cleared the target |
| EvolutionRun.PassSafe | core/evolution/__init__.py:234-362 | Every pass keeps that bound, and reports no open global breaker for a threshold above it |
| EvolutionRun.StreaksStayBounded | core/evolution/__init__.py:317-356 | Over every history no target's streak exceeds two, or one without backups |
| EvolutionRun.StreaksReachedExactly | core/evolution/__init__.py:234-362 | The streaks that occur over all histories from a fresh start are exactly those up to that limit |
| EvolutionRun.LimitReached | core/evolution/__init__.py:234-362 | A recorded rewrite, a failed one while the record is pending, then a regressed verdict: the streak is two, and a threshold of two opens the global breaker |
| EvolutionRun.GlobalBreakerOpensExactly | core/evolution/__init__.py:242-250 | Some history from a fresh start ends in an open global breaker if and only if the escalation threshold is one, or two with backups; the default is three (core/config_models/advanced.py) |
| Cooldown.ScanRespects | core/evolution/__init__.py:309-321 | Where no tool's query finds another's record, the scan forgets no live cooldown and admits no target that has one |
| Cooldown.ScanIsFilter | core/evolution/__init__.py:309-321 | Where no tool's query finds another's record the scan, although it deletes as it goes, admits just the ranked tools without a live cooldown, in their order |
| Cooldown.PassKeepsNames | core/evolution/__init__.py:234-362 | Every pass keeps breaker records and pending records to the registered tools |
| Cooldown.PassRespects | core/evolution/__init__.py:242-351 | Where no tool's query finds another's record, a pass never rewrites a tool under its own live cooldown, even if a query finds the global record |
| Cooldown.OwnCooldownKeptExactly | core/evolution/__init__.py:242-351 | Over all settings, disks and histories on these names no pass rewrites a tool under its own live cooldown if and only if no tool's query finds another tool's record |
| Cooldown.OwnCooldownExactly | core/evolution/__init__.py:242-351 | For settings whose cooldown threshold is below the escalation threshold, as the defaults are: some history does so if and only if such names exist and the threshold is a streak that occurs |
| Cooldown.ExtendingName | core/evolution/breaker.py:34-45 | Two tools of which one's name extends the other's are such names |
| Cooldown.IgnoredAtOne | core/evolution/__init__.py:242-351 | At a threshold of one: a fails, b fails, and the next pass rewrites a under its cooldown |
| Cooldown.IgnoredAtTwo | core/evolution/__init__.py:242-351 | At a threshold of two: a is rewritten, fails once more and regresses, b fails, and the next pass rewrites a under its cooldown |
| Cooldown.PassFronted | core/evolution/__init__.py:242-351 | With one tool, or where every failure escalates, every pass keeps the global record in front and reads it as stored |
| Cooldown.GlobalCooldownExactly | core/evolution/__init__.py:242-351 | For every configuration some history rewrites a tool under the live global cooldown if and only if the escalation threshold is two, backups are on, and the global query finds a record of one of two or more tools |
| Ethos.EthosBaseline.EvolveEthos | core/evolution/soft.py:167-191 | Accepted exactly when all five dimensions are proposed within [0,1]; otherwise nothing is written |
| Ethos.StepBounded | core/evolution/soft.py:176-183 | One step stays in [0,1] and on the grid, moves at most the limit, and never down where guarded, rounding included |
| Ethos.StepExactly | core/evolution/soft.py:176-183 | A proposal within the limit is taken, one beyond it moves the value by just the limit towards it, and a lower one leaves a guarded value where it is |
| Ethos.EvolvedExactly | core/evolution/soft.py:167-183 | So it is for every dimension of a baseline that is evolved |
| Ethos.RoundBetween | core/evolution/soft.py:183 | Rounding to four decimals never leaves an interval between grid points |
| Ethos.DriftBounded | core/evolution/soft.py:167-191 | Over every sequence of proposals the drift is at most the number of accepted steps times the limit, and guarded dimensions never fall |
| Cortex.ControlRoundTrip | core/cortex/intent.py:106-138 | A marked text is recognised as control text and reads back with its words unchanged |
| Cortex.PlainClean | core/cortex/intent.py:106-114 | Cleaning a text that is no control text trims it, and is then settled |
| Cortex.CleanTrims | core/cortex/intent.py:106-114 | A cleaned text has no blanks at its ends |
| Cortex.NextVerificationRoundTrip | core/cortex/intent.py:180-250 | Writer and reader agree: a stored next_verification is pending exactly when it is actionable and no control text, in the cortex and in the run's report |
| Cortex.ExplicitStateReading | tools/workbench.py:166-182 | An explicit state reads back as pending exactly when it said so, the goal shown is no control text, and that goal, or else the next_verification beside it, is actionable |
| Cortex.ControlMarkLost | core/cortex/intent.py:221-235 | A state whose goal is marked as control text reads as settled before it is written and as pending after |
| Cortex.WritingKeepsReadingExactly | core/cortex/intent.py:180-235 | The exact condition under which a state reads as pending after it is written just when it did before |
| CompletionGate.UnresolvedGate | tools/task.py:298-318 | The gate is empty exactly when every pending workbench has a newer successful verifying run or a newer explicitly resolved workbench, and otherwise names the newest blocking one |
| CompletionGate.WindowedGate | tools/task.py:298-318 | On the newest n runs the gate sees exactly the blocking workbenches among them |
| CompletionGate.VerifyingRunClearsAll | core/cortex/intent.py:258-275 | Prepending a successful run of a tool that verifies whatever was asked empties the gate |
| CompletionGate.GateForgets | tools/task.py:707-720 | Twelve newer runs without a promise empty the gate, verified or not |
| CompletionGate.ActionFirstBlockers | core/cortex/action_first.py:260-304 | Which blockers are reported, each exactly when its condition holds |
| CompletionGate.ScanActions | core/cortex/action_first.py:280-289 | The newest action is the one examined, and success is any action's |
| CompletionGate.GrowthGate | tools/task.py:159-181 | Blocked exactly when a growth task has no successful run outside `task.`, or no concrete evidence |
| CompletionGate.DecisionGate | tools/task.py:222-259 | Blocked exactly when a growth task left a change undecided, made none, and verified nothing since its newest workbench |
| CompletionGate.BrowsingGate | tools/task.py:744-765 | Blocked exactly when the successful tools, and there are some, were all for information only and no progress was written down |
| CompletionGate.MutationGate | tools/task.py:767-803 | Blocked exactly when some mutation succeeded and no verifying run is newer than the newest one |
| CompletionGate.VerifiedFirstMeans | tools/task.py:792-802 | Meeting a verifying run before any mutation, from the newest run back, is that condition |
| CompletionGate.FirstBlocker | tools/task.py:692-816 | The seven checks in their order: what is reported is the first that fails, and nothing if and only if all hold |
| CompletionGate.TaskRecord.Complete | tools/task.py:685-832 | Done exactly when the task is open and either forced or past every check over the newest twelve runs; each blocker is reported exactly when its check is the first to fail; otherwise the status is unchanged |
| CompletionGate.TaskRecord.Perform | tools/task.py:543-1166 | Any series of calls of the task tools leaves the status the transition function gives |
| CompletionGate.DoneExactly | tools/task.py:685-1166 | After any series of calls a task is done exactly when some call took it there, by a completion that went through or by an update or resumption asking for just that, and every later one left it there, or it was done before and stayed so |
| CompletionGate.FairlyDoneIsGated | tools/task.py:685-832 | Without forced completions and such requests a task that got done was completed past all seven checks: inbox, growth, workbench, decision, action, browsing and mutation, over the newest twelve runs |
| CompletionGate.WaitingGuardExactly | tools/task.py:939-946 | A series of updates takes a waiting task to an active status if and only if it goes by way of a status that is neither, without returning to waiting in between |
| AutoWorkbench.MergeList | core/cortex/autoworkbench.py:44-56 | The loop yields the first distinct items, incoming before existing, up to the limit |
| AutoWorkbench.KeptIsNewestDistinct | core/cortex/autoworkbench.py:44-56 | Although every merge forgets what exceeds the limit, the list is always the newest distinct items of the whole history |
| AutoWorkbench.MergeAgain | core/cortex/autoworkbench.py:44-56 | Merging the same items again changes nothing |
| AutoWorkbench.BuildAutoCortexPatch | core/cortex/autoworkbench.py:106-185 | The key-by-key update computes the specified cortex |
| AutoWorkbench.ListsHoldNewest | core/cortex/autoworkbench.py:106-169 | Over every history of outcomes each of the five lists holds its newest distinct lines |
| AutoWorkbench.PhaseSetLast | core/cortex/autoworkbench.py:127-182 | Over every history the phase is the one set by the newest outcome that sets any |
| AutoWorkbench.RecoverySetLast | core/cortex/autoworkbench.py:146-182 | So is the recovery state: by the newest failure, or success for which a guard left a step |
| AutoWorkbench.NeverSet | core/cortex/autoworkbench.py:127-182 | Without such an outcome both are empty |
| AutoWorkbench.NextSetLast | core/cortex/autoworkbench.py:161-182 | What is to be verified next is the newest step a guard left; without any, what the first failure of all suggested; before that, nothing |
| AutoWorkbench.StreakCountsFailures | core/cortex/autoworkbench.py:127-160 | The failure streak is the number of recorded failures since the last recorded success of a tool outside `task.` |

## Left out

- The process table of `tools/exec_helpers.py`: its lifecycle would add only one-step facts (finished stays finished,
  reload preserves the persisted fields).
- `get_top`, `pressure` and `item_max_tokens` of the working memory; the keyword overlap of the salience filter is an
  arbitrary predicate on the content.
- The heap operations are those of Python's `heapq` module, which `memory/working.py` calls; the module's source is not
  part of this model. Python lists the heap works on in place are sequences reassigned by each operation; `created_at`
  is an integer and priorities are reals, so NaN and binary rounding are not modelled (nor in the value baseline, where
  `round` is the nearest four-decimal number with ties to even).
- ModelsGen.MergeCustomModels: ids that are not strings count as missing, and a later patch that shares a configured
  object with an earlier one through aliasing is not modelled.
- JSON objects are maps, so key order is not modelled: the catalog file is equal up to the order of keys, and the
  loops of `_merge` over providers are the function `MergedCatalog`.
- SHA-256 digests, the JSON preview, the JSON parser, the Python syntax check, the classifiers of free text and the
  capability registry are function parameters; the catalog fingerprint is assumed injective where stated, and a digest
  has 64 characters.
- ReadTail.ReadTail: works on bytes with `\n` as the only line separator; UTF-8 decoding is not modelled.
- `file_edit`'s path guards, backup copy, atomic write and texts of its messages; keys written as `old_text`. Files are
  written on a system whose line separator is `\n`.
- FileRead.ReadFile: the header above a partial line window is a parameter, a range key given as null counts as
  absent, and `max_chars` given as null counts as the default.
- Case folding is ASCII only, in status words and in SQLite's LIKE.
- Breaker.IsolationExactly: assumes that facts are written in the order of the events; rows updated within one second,
  which SQLite may return in either order, are taken in the order of writing. Malformed breaker or verification facts
  and failing writes to the fact store are not modelled.
- Cooldown.OwnCooldownExactly: stated for cooldown thresholds below the escalation threshold; otherwise the global
  cooldown set with every live one decides too, by how long it lasts. Cooldown.OwnCooldownKeptExactly has no such limit.
- The ranking of failing tools, the time window and the prompt rewrite of `EvolutionEngine.run` are inputs; no
  registered tool is called `global`, which would share the global breaker's key.
- `Source` of the module `Evolution` is the text of a source file as read in text mode. A restore writes that text back,
  so a file with other line endings than `\n` is restored as text but not byte for byte.
- `synthesize_tool`, the prompt and skill rewriting, dream and history facts, the message list of the retry loop.
- The language model's candidates are inputs with their scores; the static scoring is not modelled.
- What `task.wait` checks of its parameters is an input; the failure log, the dismissals and the learned skills that the
  task tools write are not modelled.
- The readings of a task that need free text (concrete evidence, candidate and deferral markers, explicit progress) are
  inputs of the completion gate.
- The clipping of run summaries and the rendering of the lines in `build_auto_cortex_patch`: the lines are inputs.
- `task_workbench`'s clean-up of the raw patch: a patch is given as cleaned.
