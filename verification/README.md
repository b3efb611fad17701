# Verified model of the repository's algorithms and protocols

This project models, in Dafny, the parts of the repository that hold real algorithms or protocols,
and proves what they promise. Everything else (plugin registration, release scripts, network and
process handling) appears only as arbitrary inputs: an oracle's answers, or events that may come in
any order.

| files | what they model |
|---|---|
| `ImportGraph.dfy`, `ImportCycles.dfy`, `CycleWitness.dfy` (with `Sets.dfy`, `Arrangements.dfy`) | the import cycle check: Tarjan's algorithm over a mutable index, low-link map and stack, the search for a printed cycle, and the exit code |
| `TranslationBatches.dfy`, `TranslateBatch.dfy`, `Translations.dfy`, `FlatMaps.dfy`, `LocaleSync.dfy`, `RpcClient.dfy` | the translation sync: greedy batching, retry and halving, flattening and rebuilding of trees, reconciliation with cache, existing file and fallback metadata, and the single-slot client |
| `ToggleLock.dfy`, `RecallCache.dfy`, `PromptPrefix.dfy`, `PromptStrip.dfy` (with `JsText.dfy`) | active memory: the promise-chain lock around a read-modify-write file, the bounded timed cache, the injected prefix and the two strippers |
| `WorkerPool.dfy`, `Jpeg.dfy` | the worker pool that shares one index, and the JPEG marker scanner |
| `BedrockDiscovery.dfy`, `BedrockMigration.dfy` | the single-flight discovery cache, and the migration of its legacy settings |
| `ImportClosure.dfy` | the import-graph worklist and the common ancestor of its files |
| `Utf16.dfy` | slicing and truncating UTF-16 strings without cutting a surrogate pair |

## How the code is modelled

- Code that changes variables step by step is a method with loops, or a class whose methods change
  its fields. Each such method is proved equal to, or bounded by, a specification function, and the
  main results are lemmas about those functions.
- Concurrent code is a step relation. One step is the code between two awaits; a run is any list of
  enabled steps. The class beside each relation (`ToggleStore`, `ConcurrentMap`, `PiRpcClient`,
  `Discovery`) performs exactly those steps on its fields.
- A thrown error is an out-parameter or a result constructor.

## Where the code does not do what it is for

Each of these is stated with the exact condition under which the promise does hold.

- `collectStronglyConnectedComponents` throws "stack underflow" although its stack cannot
  underflow: it does so exactly when the graph names the empty path, because an empty text counts as
  missing (example in `AcyclicGraphThrows`).
- A translation tree survives flattening and rebuilding exactly when its keys are free of dots, it
  has no empty sub-object, no object stands under an empty top-level key or under a name that every
  object inherits (such as `toString`), and no field is called `__proto__` (`RoundTripIff`, examples in
  `EmptyKeyLosesItsObject` and `InheritedNameLosesItsObject`). A flat map survives rebuilding and
  flattening exactly when no key starts with a dot, no key, followed by a dot, starts another, and no
  part of a key is an inherited name, except that the last part may be any but `__proto__`
  (`FlatRoundTripIff`, examples in `KeyBelowKeyIsLost` and `KeyBelowInheritedIsLost`).
- A second translation run without a provider does not always reproduce the texts of the first one:
  the cache keys name the configured provider and model, and taking away the API key that chose the
  provider changes them (`LosingKeysRenamesProviderIff`). It does exactly when the memory holds no
  other text for a source key under the keys the second run uses (`SecondRunReproducesIff`, example in
  `SecondRunMayDiffer`).
- The session toggle store takes a file that it cannot read for an empty one. A committed toggle keeps
  the other sessions exactly when its read succeeded or no other session was disabled
  (`ReadMattersIff`, example in `FailedReadLosesSession`).
- `buildCacheKey` gives one key to two scopes not only when agent, session and hash agree, but also
  exactly when one agent's name runs over a colon into the other's session (`SharedKeyIff`, example in
  `AgentsMayShareKey`).
- `truncateSummary` drops one word too many exactly when the limit falls just after a blank that had
  already ended a word and an earlier blank is left among the words kept (`LongestIff`, example in
  `DropsAWordThatFits`).
- `resolveCommonAncestor` stops one segment too deep exactly when the longest common prefix is
  itself listed after the first path and every other path agrees with the first on the next segment.
- `readJpegDimensions` misses a frame header with no fill bytes before the markers exactly when that
  header is nine bytes long and ends the file (`LostIffBareHeaderAtEnd`, example in
  `BareHeaderIsMissed`). Fill bytes, which the standard allows, it does not know: it takes the two
  bytes behind FF FF for a length, and finds a size exactly when a header stands that far on
  (`FillFoundIff`). With a fill byte before it, the header itself is never the one read
  (`FillHidesHeader`, `FilledShortFileIsLost`).
- The Bedrock migration changes an effective setting exactly in the cases of `LosesASetting`
  (`SettingsKeptIff`): a blocked or inherited field name (`OddNameIsLost`), a nested record that gains
  a field (`NestedGainGoesUnreported`), or a field the plugin holds as `undefined`, which no parsed
  file has. Its report says "merged" only if a field was missing at the top level
  (`ReportsMergedIff`); a merge that fills only nested fields is reported as "already set", because
  the clone compared is shallow.
- A reply that lacks a usable text for some key is to be retried with the whole batch. It is, exactly
  when the first such key does not contain "timed out" in any letter case (`MissingTextRetriesIff`); otherwise the batch
  is halved, or fails if it has one item, although nothing timed out (example in `MissingTextHalves`).

## Model

| member | source | states |
|---|---|---|
| `ImportGraph.SccOnCycle` | scripts/check-import-cycles.ts:194-196 | a node of a strongly connected component lies on a cycle iff the component has two nodes or the node imports itself |
| `ImportGraph.SccsDisjointOrEqual` | scripts/check-import-cycles.ts:155-208 | two strongly connected components with a common node are the same set |
| `ImportCycles.CollectStronglyConnectedComponents` | scripts/check-import-cycles.ts:155-208 | for every finite graph and key order it terminates, throws iff the graph names the empty path, and otherwise lists exactly the cyclic strongly connected components, each once, pairwise disjoint, whatever the two sorts do to the order |
| `ImportCycles.ReportCharacterized` | scripts/check-import-cycles.ts:184-197 | two files share a reported component iff the first lies on a cycle and each reaches the other |
| `ImportCycles.EmptyReportIffAcyclic` | scripts/check-import-cycles.ts:262-267 | nothing is reported iff no file of the graph lies on an import cycle |
| `ImportCycles.SortReport` | scripts/check-import-cycles.ts:195-207 | sorting each component and then the list, by any order, keeps the report exact |
| `ImportCycles.AcyclicGraphThrows` | scripts/check-import-cycles.ts:187-190 | a concrete graph without a cycle for which the pass throws |
| `ImportCycles.SccSearch.PopComponent` | scripts/check-import-cycles.ts:184-193 | popping ends at the root without underflow, returns the stack above it in reverse order, and throws iff an empty path comes off |
| `ImportCycles.SccSearch.Enter` | scripts/check-import-cycles.ts:166-170 | the start of a visit keeps the search invariant and opens the scan of the node with its own index as low link |
| `ImportCycles.SccSearch.ScanImport` | scripts/check-import-cycles.ts:172-179 | one turn of the loop keeps the invariant and extends the scan by one import, whether it is new, stacked or already finished |
| `ImportCycles.SccSearch.ScanImports` | scripts/check-import-cycles.ts:172-179 | the loop scans every import of the node and leaves other low links alone |
| `ImportCycles.SccSearch.Lower` | scripts/check-import-cycles.ts:175-177 | only the low link of the node changes, to the smaller of two values |
| `ImportCycles.SccSearch.Leave` | scripts/check-import-cycles.ts:181-196 | the end of a visit keeps the invariant in both cases: the node stays stacked, or its component is popped |
| `ImportCycles.SccSearch.PopRoot` | scripts/check-import-cycles.ts:184-196 | the popped component is recorded iff it is cyclic, so the report stays exact for the finished nodes |
| `ImportCycles.SccSearch.Visit` | scripts/check-import-cycles.ts:165-197 | a visit terminates, keeps the invariant, leaves the stack below it as it was and gives the node a low link that covers its imports |
| `ImportCycles.SccSearch.Run` | scripts/check-import-cycles.ts:199-203 | the outer loop finishes every node of the graph in any key order |
| `ImportCycles.ScanNested` | scripts/check-import-cycles.ts:173-175 | after a nested visit, the minimum of both low links covers everything seen so far |
| `ImportCycles.ScanStacked` | scripts/check-import-cycles.ts:176-178 | an edge to a stacked node is covered by lowering to that node's index |
| `ImportCycles.LeaveRoot` | scripts/check-import-cycles.ts:181-193 | when the low link equals the index, the stack from the node up is one strongly connected component, disjoint from all finished ones |
| `ImportCycles.LeaveNested` | scripts/check-import-cycles.ts:181-183 | when the low link is below the index, leaving the node stacked keeps the invariant |
| `ImportCycles.CutIsScc` | scripts/check-import-cycles.ts:184-193 | the popped slice is maximal: its nodes reach each other and nothing outside it both reaches and is reached |
| `ImportCycles.CutKeepsInvariant` | scripts/check-import-cycles.ts:184-193 | removing a finished component keeps every clause of the search invariant |
| `ImportCycles.StartKeepsInvariant` | scripts/check-import-cycles.ts:166-170 | numbering and pushing a new node keeps every clause of the search invariant |
| `ImportCycles.FinishKeepsInvariant` | scripts/check-import-cycles.ts:181-183 | a node left on the stack still reaches a running node of smaller index |
| `ImportCycles.ReportedIffCyclic` | scripts/check-import-cycles.ts:194-196 | the code's test on a popped component holds iff its nodes lie on a cycle |
| `ImportCycles.ReportGrows` | scripts/check-import-cycles.ts:194-196 | adding or skipping a popped component keeps the report exact |
| `CycleWitness.FindCycleWitness` | scripts/check-import-cycles.ts:210-243 | it returns a cycle inside the component whenever one can be reached from its first file, and falls back to the component otherwise; an empty first path gives nothing |
| `CycleWitness.WitnessSearch.Visit` | scripts/check-import-cycles.ts:221-241 | the search either returns a cycle of distinct files or gives the node up after all its imports |
| `CycleWitness.WitnessSearch.Follow` | scripts/check-import-cycles.ts:224-237 | one import is answered by a cycle, by an earlier dead end, or by a nested visit |
| `CycleWitness.WitnessSearch.Push` | scripts/check-import-cycles.ts:222-223 | extends the active path by one edge and marks the node |
| `CycleWitness.WitnessSearch.Pop` | scripts/check-import-cycles.ts:239-240 | the node given up imports only files given up before it |
| `CycleWitness.ReportedCycleReachable` | scripts/check-import-cycles.ts:242 | in a reported component a cycle can be reached from the first file, so the fallback is never taken |
| `CycleWitness.NoCycleBelow` | scripts/check-import-cycles.ts:239-240 | a file given up leads to no cycle inside the component |
| `CycleWitness.BackEdgeFound` | scripts/check-import-cycles.ts:228-231 | the path from the earlier occurrence on, closed by the edge found, is a cycle with distinct files |
| `CycleWitness.PrintOne` | scripts/check-import-cycles.ts:245-251 | what is printed for a reported component is a real cycle of the graph inside it |
| `CycleWitness.PrintAll` | scripts/check-import-cycles.ts:270-273 | one witness is printed for each reported component, in order |
| `CycleWitness.CheckImportCycles` | scripts/check-import-cycles.ts:253-276 | the exit code is 0 iff no file lies on a cycle; otherwise it is 1 and every reported component, with its files and the list in any order, comes with a cycle |
| `ToggleLock.EveryRunIsSerial` | extensions/active-memory/index.ts:177-201 | in every interleaving at most one call is inside, calls enter in call order, and the file is the sequential application of the committed calls, each with what its own read came to |
| `ToggleLock.ReadMattersIff` | extensions/active-memory/index.ts:445-524 | a call writes what it would have written after a proper read iff its read succeeded or no other session was disabled |
| `ToggleLock.RunLosesNothing` | extensions/active-memory/index.ts:508-525 | the file is the plain sequential application of the committed calls, with no update lost, in every run of which each committed call had read the file or found no other session disabled |
| `ToggleLock.AllReadLosesNothing` | extensions/active-memory/index.ts:445-478 | that is so whenever no read of a committed call failed |
| `ToggleLock.FailedReadLosesSession` | extensions/active-memory/index.ts:471-476 | a concrete run in which a failed read makes the next toggle enable another session again |
| `ToggleLock.SomeStepEnabled` | extensions/active-memory/index.ts:179-191 | while a call is unfinished some call can step, even after calls whose work threw: no waiter is stranded |
| `ToggleLock.StepReducesWork` | extensions/active-memory/index.ts:179-191 | every step of a call in progress brings the end nearer by one, whether its read and write fail or not |
| `ToggleLock.EveryCallFinishes` | extensions/active-memory/index.ts:179-191 | a run without new calls has boundedly many steps, and after that many every call has released the lock |
| `ToggleLock.EveryRunCanFinish` | extensions/active-memory/index.ts:179-191 | every run extends, without new calls and in exactly the steps still owed, to one in which every call has released the lock |
| `ToggleLock.LastToggleWins` | extensions/active-memory/index.ts:490-525 | after any run a session is disabled iff the last committed toggle of it asked for that, or, with none, the file said so before, and every call committed after that had read the file |
| `ToggleLock.LastCommitWins` | extensions/active-memory/index.ts:514-524 | the same for any list of commits, with any outcomes of their reads, applied to any file |
| `ToggleLock.AppliedReads` | extensions/active-memory/index.ts:445-525 | reading after one committed call shows that call's value for its key and, for every other key, the old value if the call's own read succeeded and nothing otherwise |
| `ToggleLock.AppliedTimes` | extensions/active-memory/index.ts:460-467 | the time recorded for a session is that of the call that disabled it |
| `ToggleLock.DisabledIff` | extensions/active-memory/index.ts:490-500 | a session counts as disabled iff the file has an object with `disabled` true under its trimmed, non-empty key |
| `ToggleLock.WrittenShape` | extensions/active-memory/index.ts:516-524 | the file has a sessions object iff some session is disabled, and each entry in it says so |
| `ToggleLock.ToggleStore.InvokeToggle` | extensions/active-memory/index.ts:180-184 | a call installs a fresh promise and remembers the one before it |
| `ToggleLock.ToggleStore.EnterTask` | extensions/active-memory/index.ts:185-187 | a call enters only when the promise it remembers has resolved |
| `ToggleLock.ToggleStore.ReadStore` | extensions/active-memory/index.ts:445-478 | the read sees the file as it is at that step, or an empty store if it fails |
| `ToggleLock.ToggleStore.WriteStore` | extensions/active-memory/index.ts:516-524 | a write that succeeds commits the edited sessions; one that fails leaves the file alone |
| `ToggleLock.ToggleStore.ReleaseLock` | extensions/active-memory/index.ts:188-190 | the call's own promise resolves even if the work inside threw |
| `TranslationBatches.BuildTranslationBatches` | scripts/control-ui-i18n.ts:659-683 | the batches concatenate to the input, none is empty or over 20 items, a batch of two or more stays within the budget with 2 added per item, and no order-preserving split within the same limits has fewer batches |
| `TranslationBatches.GreedyStaysAhead` | scripts/control-ui-i18n.ts:659-683 | after k batches the greedy split has consumed at least as many items as any other split |
| `TranslationBatches.GreedyIsSmallest` | scripts/control-ui-i18n.ts:659-683 | a split whose batches are full has the fewest batches of all |
| `TranslationBatches.FullSplitUnique` | scripts/control-ui-i18n.ts:659-683 | there is only one split within the limits that leaves no room in any batch: the batcher's result is determined |
| `TranslationBatches.PartFits` | scripts/control-ui-i18n.ts:499-501 | every contiguous part of a batch within the limits is within the limits |
| `TranslationBatches.ChargedOneMore` | scripts/control-ui-i18n.ts:664-679 | the running total grows by the whole estimate of one item, base cost included |
| `TranslationBatches.EstimateIs` | scripts/control-ui-i18n.ts:499-501 | the estimate is the length of all keys and texts, eight more for each item and two in all |
| `TranslationBatches.ResolveBudget` | scripts/control-ui-i18n.ts:490-497 | the budget is always positive, is the set value whenever that is a finite positive number, and otherwise the default |
| `TranslateBatch.TranslateItems` | scripts/control-ui-i18n.ts:925-987 | for any translator the call terminates, on success holds exactly the input keys with non-blank texts that some reply supplied, and issues at most 4n - 2 prompts |
| `TranslateBatch.SuccessIsComplete` | scripts/control-ui-i18n.ts:943-974 | however often a batch was halved, the joined map has exactly the input keys, each with a usable text from one of the replies |
| `TranslateBatch.PromptsBounded` | scripts/control-ui-i18n.ts:933-985 | n items cost at most 4n - 2 prompts, and none cost at most 2 |
| `TranslateBatch.BoundIsTight` | scripts/control-ui-i18n.ts:933-985 | for every non-empty batch some translator makes a successful call cost exactly 4n - 2 prompts |
| `TranslateBatch.CollectReply` | scripts/control-ui-i18n.ts:943-952 | the loop stops at the first key without a non-blank text |
| `TranslateBatch.CollectComplete` | scripts/control-ui-i18n.ts:943-952 | a reply is accepted only with a non-blank string for every item |
| `TranslateBatch.MissingTextRetriesIff` | scripts/control-ui-i18n.ts:943-985 | for every batch and every reply that lacks a text, the whole batch is tried again, whatever replies follow, iff the first such key does not look like a timeout |
| `TranslateBatch.MissingTextStep` | scripts/control-ui-i18n.ts:946-978 | after such a reply the batch is retried, halved, or failed, by the first key without a text and the batch size |
| `TranslateBatch.GoodIff` | scripts/control-ui-i18n.ts:943-954 | an attempt is good iff its reply has a usable text for every item, and then has just those texts |
| `TranslateBatch.GoodReplyEnds` | scripts/control-ui-i18n.ts:938-954 | a reply that answers every item ends the batch at once, with its texts and no further prompt |
| `TranslateBatch.SecondReplyEnds` | scripts/control-ui-i18n.ts:955-984 | a first attempt that fails without a timeout is made up for by a second one that answers, after two prompts in all |
| `TranslateBatch.FailuresEnd` | scripts/control-ui-i18n.ts:975-986 | two such failures end the batch after two prompts, and a timeout ends a batch of one item after one |
| `TranslateBatch.TimeoutHalvesInOrder` | scripts/control-ui-i18n.ts:959-974 | after a timeout the first half is prompted for before the second, and both replies' texts are joined, the later one winning |
| `TranslateBatch.HalfFailureEnds` | scripts/control-ui-i18n.ts:964-974 | a half that fails ends the batch, and the second half is not prompted for if the first fails |
| `TranslateBatch.MidpointIsBalanced` | scripts/control-ui-i18n.ts:960 | the halves differ by one item at most, and the first is the larger |
| `TranslateBatch.ContainsIff` | scripts/control-ui-i18n.ts:473-475 | the search for the words finds them iff they stand somewhere in the message |
| `TranslateBatch.MissingLooksTimedOutIff` | scripts/control-ui-i18n.ts:473-475 | searching the whole message for a timeout is searching the key: the fixed words never match |
| `TranslateBatch.MissingTextHalves` | scripts/control-ui-i18n.ts:946-974 | a concrete batch of two that is halved although nothing timed out |
| `TranslateBatch.HalvingMayEndAlike` | scripts/control-ui-i18n.ts:953-974 | one translator for which halving that batch ends as retrying it would, so that the promise has to speak of all translators |
| `TranslateBatch.AllBatchesComplete` | scripts/control-ui-i18n.ts:1075-1102 | if all batches succeed, their texts are one usable text for each key, each from a prompt of this run |
| `TranslateBatch.AllPromptsBounded` | scripts/control-ui-i18n.ts:1075-1102 | n items in b batches cost at most 4n - 2b prompts |
| `TranslateBatch.GoodRepliesEndAll` | scripts/control-ui-i18n.ts:1075-1102 | if the first prompt of each of b batches answers it, the run takes exactly b prompts |
| `Translations.RoundTrip` | scripts/control-ui-i18n.ts:281-308 | rebuilding a flattened tree gives back the tree, entry order included |
| `Translations.RoundTripIff` | scripts/control-ui-i18n.ts:281-308 | the round trip holds iff keys are dot-free, no sub-object is empty, no object stands under an empty top-level key or an inherited name, and no field is called `__proto__` |
| `Translations.RebuildPrunes` | scripts/control-ui-i18n.ts:281-308 | of any tree whose dotted keys tell its paths comes back all but the objects under inherited names, the texts under `__proto__`, and the objects without leaves |
| `Translations.EmptyKeyLosesItsObject` | scripts/control-ui-i18n.ts:287 | an object under an empty key comes back without that level |
| `Translations.InheritedNameLosesItsObject` | scripts/control-ui-i18n.ts:298-307 | an object under an inherited name, whichever, comes back as nothing, and so does a text under `__proto__` |
| `Translations.RebuildRelabelled` | scripts/control-ui-i18n.ts:1135-1138 | rebuilding with other texts gives the same tree with those texts, and flattening that gives the relabelled pairs |
| `Translations.FlattenAppends` | scripts/control-ui-i18n.ts:281-291 | flattening appends one pair for each leaf, in tree order, to what was there |
| `Translations.PairsAreLeaves` | scripts/control-ui-i18n.ts:281-291 | splitting a flat key at its dots gives the path to the leaf |
| `Translations.GrowAppends` | scripts/control-ui-i18n.ts:293-308 | setting all leaves of a tree behind disjoint entries appends that tree without what is lost under inherited names |
| `Translations.Flattener.FlattenTranslations` | scripts/control-ui-i18n.ts:281-291 | the recursive fill of the shared map computes the flattening |
| `Translations.TranslationTree.SetNestedValue` | scripts/control-ui-i18n.ts:293-308 | the cursor loop sets exactly the value at the key's path and creates the objects on the way; from an inherited value on it misses the tree |
| `Translations.TranslationTree.SetAll` | scripts/control-ui-i18n.ts:1135-1138 | the loop over all pairs rebuilds the tree |
| `LocaleSync.SyncLocale` | scripts/control-ui-i18n.ts:1017-1128 | a run fails iff it has a provider and one of the greedy batches fails; a completed run settles exactly the source keys, each with the cached, existing, translated or English text the rules give it, marks exactly the fallbacks, and each translated text is what a prompt of this run returned for that key |
| `LocaleSync.Classify` | scripts/control-ui-i18n.ts:1021-1050 | the first loop reuses or queues each key as specified |
| `LocaleSync.TranslatePending` | scripts/control-ui-i18n.ts:1052-1105 | success, texts and number of prompts are those of the greedy batches in order; on success every text is stored and remembered |
| `LocaleSync.StoreBatch` | scripts/control-ui-i18n.ts:1082-1101 | one batch's texts are stored under their keys and remembered under their cache keys |
| `LocaleSync.FillRest` | scripts/control-ui-i18n.ts:1114-1128 | the last loop gives each open key the existing or the English text and marks the fallbacks |
| `LocaleSync.PendingKeyIff` | scripts/control-ui-i18n.ts:1028-1049 | a key is sent to the provider iff it has neither a cached nor an existing text, or is a fallback that a provider can refresh |
| `LocaleSync.TranslatedCountInRange` | scripts/control-ui-i18n.ts:1147 | 0 <= translatedKeys <= totalKeys |
| `LocaleSync.ProviderLeavesNoFallback` | scripts/control-ui-i18n.ts:1028-1128 | a completed run with a provider leaves no fallback key |
| `LocaleSync.TextComesFrom` | scripts/control-ui-i18n.ts:1028-1128 | each key's text is the provider's if it was asked, else the remembered one, else the existing one, else the English one |
| `LocaleSync.FallbackIff` | scripts/control-ui-i18n.ts:1033-1128 | a key is a fallback iff there is no provider and it was one before or has neither a remembered nor an existing text |
| `LocaleSync.EnglishIsAskedForLater` | scripts/control-ui-i18n.ts:1028-1128 | a key that gets its English text for want of another is marked, and the next run with a provider asks for it |
| `LocaleSync.PendingItemsAreSources` | scripts/control-ui-i18n.ts:1044-1049 | an item sent to the provider carries the English text, its hash and the cache key of a source key |
| `LocaleSync.TranslationsAreRemembered` | scripts/control-ui-i18n.ts:1086-1100 | after a run the memory holds every translation under its cache key, and every other entry as before |
| `LocaleSync.SecondRunReproducesIff` | scripts/control-ui-i18n.ts:1017-1128 | a second run under any provider and model, without a provider or with no key left a fallback, has nothing pending and ends with the same fallbacks and memory; its texts are the same iff the memory holds no other text for a source key under the cache keys of the second run |
| `LocaleSync.SecondRunReproduces` | scripts/control-ui-i18n.ts:238-253 | under the same provider and model, and so the same cache keys, it always ends with the same texts |
| `LocaleSync.SecondRunMayDiffer` | scripts/control-ui-i18n.ts:238-253 | two concrete runs, the second without the API key that chose the first one's provider, of which the second writes another text |
| `LocaleSync.LosingKeysRenamesProviderIff` | scripts/control-ui-i18n.ts:198-224 | without API keys there is no provider, and the provider named in the cache keys is another one iff only an Anthropic key had chosen it |
| `LocaleSync.CacheKeysDiffer` | scripts/control-ui-i18n.ts:238-253 | for a digest that tells its inputs apart, cache keys agree iff provider, model, locale, key and text hash do |
| `LocaleSync.SecondRunKeepsMeta` | scripts/control-ui-i18n.ts:1140-1169 | a second run at any later time and in any environment, without a provider or with no key left a fallback, writes the same metadata, time stamp included, iff it has no provider or its provider and model are those recorded |
| `LocaleSync.MetaDescribesRun` | scripts/control-ui-i18n.ts:1140-1169 | the metadata names the fallbacks, counts the source keys and those that are no fallback, and names the run's provider and model, or those recorded before if it had none |
| `LocaleSync.StampRenewedIff` | scripts/control-ui-i18n.ts:1148-1161 | the time stamp is renewed iff something else in the metadata changes |
| `LocaleSync.TextIsKept` | scripts/control-ui-i18n.ts:1082-1101 | after a run the memory holds, under the cache keys of that run, no other text for a source key than the one settled on |
| `LocaleSync.WrittenTreeReadsBack` | scripts/control-ui-i18n.ts:1135-1138 | the tree written has the source's shape and flattens to exactly the settled texts |
| `LocaleSync.SecondRunWritesSameTreeIff` | scripts/control-ui-i18n.ts:1005-1138 | from a source tree: a second run that reads the files the first one wrote, under any provider and model, has nothing to translate and keeps fallbacks and memory; it writes the same tree iff the memory holds no other text for a source key under its cache keys |
| `FlatMaps.FlatRoundTripIff` | scripts/control-ui-i18n.ts:281-308 | a flat map survives rebuilding and flattening iff no key starts with a dot, no key's path runs into another's, and no path leads through an inherited name or ends in `__proto__` |
| `FlatMaps.BelowIff` | scripts/control-ui-i18n.ts:293-308 | one path runs into another iff the first key, followed by a dot, starts the second |
| `FlatMaps.TextAfterSet` | scripts/control-ui-i18n.ts:293-308 | setting one path: that path reads the value iff it meets no inherited value on the way, paths above and below it read nothing, all others read as before |
| `FlatMaps.FlattenHolds` | scripts/control-ui-i18n.ts:281-291 | a tree whose dotted keys tell its paths flattens to exactly the texts at its paths |
| `FlatMaps.KeyBelowKeyIsLost` | scripts/control-ui-i18n.ts:293-308 | two keys, one running into the other, of which only one survives |
| `FlatMaps.StaysMissing` | scripts/control-ui-i18n.ts:298-307 | a place under an inherited name comes into being only when a text is set right there, and under `__proto__` never |
| `FlatMaps.KeyBelowInheritedIsLost` | scripts/control-ui-i18n.ts:298-307 | a map with one key below an inherited name, whichever, is lost |
| `FlatMaps.FlattenDistinct` | scripts/control-ui-i18n.ts:281-291 | flattening never yields a key twice |
| `WorkerPool.EveryRunClaimsOnce` | scripts/update-clawtributors.ts:497-503 | in every interleaving no index is held by two workers, a held index has no result yet, at most max(1, min(limit, n)) mapper calls are in flight, and the k-th call of the mapper in the whole run is the one for item k, so none is called twice |
| `WorkerPool.FinishedRunIsMap` | scripts/update-clawtributors.ts:490-506 | a finished pool resolves iff the mapper answers every item, and then every index was called and result i is the answer for item i |
| `WorkerPool.UnclaimedKeepsAllBusy` | scripts/update-clawtributors.ts:498-503 | the limit is used: while an item is unclaimed, all workers have begun and none has failed, exactly max(1, min(limit, n)) mapper calls are in flight |
| `WorkerPool.EveryRunEnds` | scripts/update-clawtributors.ts:498-504 | no run is longer than n plus two steps for each worker |
| `WorkerPool.UnfinishedCanStep` | scripts/update-clawtributors.ts:498-504 | an unfinished pool always has a step to take |
| `WorkerPool.StepKeepsInvariant` | scripts/update-clawtributors.ts:498-504 | every step keeps the account of which index is unclaimed, held or answered |
| `WorkerPool.ConcurrentMap.ClaimNext` | scripts/update-clawtributors.ts:499-500 | the loop head claims the next index, or leaves when none is left |
| `WorkerPool.ConcurrentMap.BeginWorker` | scripts/update-clawtributors.ts:498-499 | a worker's first step is a claim |
| `WorkerPool.ConcurrentMap.ResumeWorker` | scripts/update-clawtributors.ts:501 | an answer is written at the worker's own index before the next claim; a rejection ends the worker |
| `RpcClient.EveryRunIsSequential` | scripts/control-ui-i18n.ts:758-878 | in every run at most one prompt is unanswered, requests go out in call order without gaps, and every written prompt but the last has succeeded, whatever became of the last |
| `RpcClient.AnswerGoesToLatest` | scripts/control-ui-i18n.ts:801-810 | an `agent_end` settles only the latest written prompt |
| `RpcClient.SpentClientStaysSilent` | scripts/control-ui-i18n.ts:815-818 | after a failed prompt or a close nothing more is written, and no prompt not yet written ever succeeds |
| `RpcClient.CloseIsFinal` | scripts/control-ui-i18n.ts:880-890 | once `close()` is called or the process has closed, nothing more is written in any run, and no prompt not yet written succeeds |
| `RpcClient.NothingSucceedsPastFailure` | scripts/control-ui-i18n.ts:814-878 | no prompt called after a failed one ever succeeds |
| `RpcClient.TurnComes` | scripts/control-ui-i18n.ts:815-824 | when a prompt's turn comes all earlier ones have settled, and if they succeeded every one of them was written |
| `RpcClient.TurnWritesIff` | scripts/control-ui-i18n.ts:814-870 | when its turn comes a prompt is written and waits for its answer iff the client is neither closed nor failed; otherwise it fails unwritten |
| `RpcClient.EventSettles` | scripts/control-ui-i18n.ts:745-870 | every other event settles the unanswered prompt as it should, and no other: an answer with its text, and an error, a close, the prompt's own timer, a failed write or a refusal of its request as a failure |
| `RpcClient.EventIsIdle` | scripts/control-ui-i18n.ts:745-870 | with no prompt unanswered such an event settles nothing |
| `RpcClient.ClosesIff` | scripts/control-ui-i18n.ts:826-890 | a client closes exactly at `close()`, at the end of its process and when a prompt times out |
| `RpcClient.EachPromptGetsItsAnswer` | scripts/control-ui-i18n.ts:745-872 | in every run the prompt called i-th succeeds iff there is an i-th answer, and then with its text |
| `RpcClient.EveryCallIsAPrompt` | scripts/control-ui-i18n.ts:814 | each call makes one prompt, and nothing else does |
| `RpcClient.EveryPromptCanSettle` | scripts/control-ui-i18n.ts:826-850 | from every state of a run the turns and timers alone settle all prompts, whatever the child does not say |
| `RpcClient.StepKeepsInvariant` | scripts/control-ui-i18n.ts:727-891 | every event keeps the order of prompts, the match between slot and active prompt, and the numbering of requests |
| `RpcClient.PiRpcClient.Prompt` | scripts/control-ui-i18n.ts:814-815 | a call queues behind the previous promise |
| `RpcClient.PiRpcClient.Run` | scripts/control-ui-i18n.ts:815-873 | the chained body is skipped after a failure, throws when closed, and otherwise fills the slot and writes |
| `RpcClient.PiRpcClient.HandleStdoutLine` | scripts/control-ui-i18n.ts:766-812 | a line settles the pending prompt, only marks it answered, or does nothing, by its type and id |
| `RpcClient.PiRpcClient.RejectPendingPrompt` | scripts/control-ui-i18n.ts:758-764 | the slot is emptied and its prompt rejected |
| `RpcClient.PiRpcClient.OnProcessError` | scripts/control-ui-i18n.ts:738-740 | a process error rejects the pending prompt |
| `RpcClient.PiRpcClient.OnProcessClose` | scripts/control-ui-i18n.ts:742-747 | the end of the process closes the client and rejects the pending prompt |
| `RpcClient.PiRpcClient.OnPromptTimeout` | scripts/control-ui-i18n.ts:834-846 | a timeout acts only while its own prompt is pending; it then closes the client |
| `RpcClient.PiRpcClient.OnPromptWriteError` | scripts/control-ui-i18n.ts:863-873 | a write error frees the slot only if its own prompt holds it |
| `RpcClient.PiRpcClient.CloseClient` | scripts/control-ui-i18n.ts:880-891 | closing settles no prompt |
| `PromptPrefix.EscapesAgree` | extensions/active-memory/index.ts:1296-1303 | the five replacements in sequence are one substitution of each character |
| `PromptPrefix.EscapeRoundTrip` | extensions/active-memory/index.ts:1296-1303 | a reader of the five entities gets back exactly the text, so escaping is injective |
| `PromptPrefix.EscapedIsInert` | extensions/active-memory/index.ts:1296-1303 | escaped text holds no markup character, and no line break that the text did not hold |
| `PromptPrefix.SummaryIsOneLine` | extensions/active-memory/index.ts:1309-1339 | whatever the reply, the summary is one line whose only white space is single blanks |
| `PromptPrefix.CollapseIsSpaced` | extensions/active-memory/index.ts:1314 | collapsing white space and trimming leaves exactly the words, in order, with single blanks between |
| `PromptPrefix.NoSummaryIff` | extensions/active-memory/index.ts:1305-1319 | a reply gives no summary iff its words, so joined and in lower case, are a listed value; otherwise those words are the summary |
| `PromptPrefix.PrefixCarriesSummary` | extensions/active-memory/index.ts:1309-1360 | every reply with a summary gets header, opening tag, one line that reads back as the summary cut to size, and closing tag |
| `PromptPrefix.TruncateIsPrefix` | extensions/active-memory/index.ts:1321-1339 | truncation gives a trimmed prefix within the limit |
| `PromptPrefix.LongestIff` | extensions/active-memory/index.ts:1321-1339 | when some whole word fits, the result is the longest run of whole words within the limit iff not: the limit falls just after a blank that already ended a word and an earlier blank is left among the words kept |
| `PromptPrefix.DropsAWordThatFits` | extensions/active-memory/index.ts:1328-1338 | a concrete summary loses a word it had room for |
| `PromptPrefix.CutTwiceDropsOne` | extensions/active-memory/index.ts:1328-1338 | in that case exactly one word is dropped from the longest run of whole words |
| `PromptPrefix.NoWordFits` | extensions/active-memory/index.ts:1327-1338 | if not even one whole word fits, the text is cut at the limit |
| `PromptPrefix.MarkersAreGood` | extensions/active-memory/index.ts:224-230 | the plugin's header and tags are distinct one-line texts that a trimmed line can be compared with |
| `PromptStrip.StripUndoesInjection` | extensions/active-memory/index.ts:1341-1358 | for every reply that yields a summary and every text, both strippers give the same result on prefix, line break and text as on the text |
| `PromptStrip.StripUndoesAllInjections` | extensions/active-memory/index.ts:1449-1515 | the same for any number of prefixes with the plugin's own markers |
| `PromptStrip.OwnWordsAreKept` | extensions/active-memory/index.ts:1486-1515 | a text that never repeats the header loses only blank lines |
| `PromptStrip.RecalledKeepsConversation` | extensions/active-memory/index.ts:1449-1484 | on every list of lines the stripper keeps, in order, exactly the lines that are words or a never closed opening tag, lie in no closed block, and match no status pattern |
| `PromptStrip.InjectedKeepsOwn` | extensions/active-memory/index.ts:1486-1515 | on every list of lines the other stripper keeps, in order, exactly the lines that are not blank and lie in no injected prefix |
| `PromptStrip.PlainLinesAreKept` | extensions/active-memory/index.ts:1477-1480 | among lines that are no markers, what is kept is what matches no status pattern |
| `PromptStrip.LineIs` | extensions/active-memory/index.ts:1453-1476 | a line counts as a marker iff it says nothing else, white space at its ends aside |
| `PromptStrip.CleanedIsWords` | extensions/active-memory/index.ts:1483 | the result is the words of the kept lines, in order, with single blanks between |
| `PromptStrip.StrippedIsWords` | extensions/active-memory/index.ts:1449-1515 | from text to text: both strippers give the words of exactly the lines they are to keep |
| `PromptStrip.PrefixLines` | extensions/active-memory/index.ts:1341-1358 | an injected prefix reads as header, opening tag, one line that is no tag, closing tag |
| `PromptStrip.KeepRecalledLines` | extensions/active-memory/index.ts:1449-1484 | the loop with its skips keeps exactly the specified lines |
| `PromptStrip.KeepInjectedLines` | extensions/active-memory/index.ts:1486-1515 | the loop with its skips keeps exactly the specified lines |
| `PromptStrip.StripRecalledContextNoise` | extensions/active-memory/index.ts:1449-1484 | the kept lines joined by single blanks |
| `PromptStrip.StripInjectedActiveMemoryPrefixOnly` | extensions/active-memory/index.ts:1486-1515 | the kept lines joined by single blanks |
| `RecallCache.HitIsLastStored` | extensions/active-memory/index.ts:934-970 | after any history a hit is the value stored last for that key, not expired, and of status "ok" or "empty"; the cache never exceeds 1000 entries |
| `RecallCache.SharedKeyIff` | extensions/active-memory/index.ts:924-932 | two scopes share a key iff their hashes agree and so do agents and sessions, or one agent runs over a colon into the other's session |
| `RecallCache.AgentsMayShareKey` | extensions/active-memory/index.ts:931 | two concrete agents share a key |
| `RecallCache.SessionsApart` | extensions/active-memory/index.ts:924-932 | one agent's scopes that share a key have the same hash and the same session key, or id where there is no key |
| `RecallCache.StoreKeepsNewest` | extensions/active-memory/index.ts:946-962 | after a set the new entry is last and the rest are the newest other live entries in their old order |
| `RecallCache.StoredResultIsFound` | extensions/active-memory/index.ts:934-962 | a stored result is found until it expires, as long as fewer than 1000 other keys were stored since |
| `RecallCache.FinishStoresIff` | extensions/active-memory/index.ts:946-970 | a finished recall is served until it expires if its status is "ok" or "empty", and leaves the cache alone otherwise |
| `RecallCache.LookupRemovesOnlyExpired` | extensions/active-memory/index.ts:934-944 | a lookup is a hit iff a live entry has the key, and removes an expired one and nothing else |
| `RecallCache.LiveEntrySurvives` | extensions/active-memory/index.ts:946-970 | a live entry can be pushed out only by 1000 newer keys |
| `RecallCache.EvictionKeepsNewest` | extensions/active-memory/index.ts:955-961 | eviction drops the oldest insertions first, down to the limit |
| `RecallCache.ActiveRecallCache.GetCachedResult` | extensions/active-memory/index.ts:934-944 | a lookup serves a live entry and removes an expired one |
| `RecallCache.ActiveRecallCache.SetCachedResult` | extensions/active-memory/index.ts:946-962 | sweep, reinsert at the end, evict |
| `RecallCache.ActiveRecallCache.SweepExpiredCacheEntries` | extensions/active-memory/index.ts:964-970 | exactly the expired entries go, the others keep their order |
| `RecallCache.ActiveRecallCache.FinishRecall` | extensions/active-memory/index.ts:1814-1816 | only "ok" and "empty" results are stored, under the key built for their scope, which is never empty |
| `BedrockDiscovery.EveryRunIsSingleFlight` | extensions/amazon-bedrock/discovery.ts:331-406 | in every run two fetches of one key are unresolved together only if caching is off |
| `BedrockDiscovery.ServedValueIsFresh` | extensions/amazon-bedrock/discovery.ts:331-335 | a caller served from the cache gets what a fetch of its own key returned, started less than one refresh interval ago, and starts no fetch |
| `BedrockDiscovery.OwnerSettlesItsOwnEntry` | extensions/amazon-bedrock/discovery.ts:408-427 | an owner's final set or delete meets its own entry and no other key; a failed fetch leaves no entry |
| `BedrockDiscovery.OneFetchPerWindow` | extensions/amazon-bedrock/discovery.ts:331-339 | once a value is cached, its key is not fetched again before it expires, and every caller for it in between is answered with that value |
| `BedrockDiscovery.WaiterGetsOutcome` | extensions/amazon-bedrock/discovery.ts:337-428 | however a run goes on, a caller that waits either still does, or got exactly the models its fetch returned, or its fetch failed and it got none as the owner and an error as one that had joined |
| `BedrockDiscovery.EveryAnswerIsGrounded` | extensions/amazon-bedrock/discovery.ts:331-428 | in every run behind each answer stands a fetch of the caller's own key that returned it or failed |
| `BedrockDiscovery.ResumeAnswers` | extensions/amazon-bedrock/discovery.ts:408-428 | a caller that resumes is answered by the outcome of its fetch, and no other caller is touched |
| `BedrockDiscovery.SettledStays` | extensions/amazon-bedrock/discovery.ts:344-399 | a fetch keeps the outcome it settles with |
| `BedrockDiscovery.StartsFetchIff` | extensions/amazon-bedrock/discovery.ts:331-406 | a call starts a fetch iff caching is off or the cache has neither an unexpired value nor a fetch in flight for its key |
| `BedrockDiscovery.StepKeepsInvariant` | extensions/amazon-bedrock/discovery.ts:329-429 | every step keeps owners and entries matched, and every unresolved fetch owned |
| `BedrockDiscovery.Discovery.DiscoverModels` | extensions/amazon-bedrock/discovery.ts:329-406 | a call serves, joins or starts a fetch, by the entry it finds |
| `BedrockDiscovery.Discovery.SettleFetch` | extensions/amazon-bedrock/discovery.ts:344-399 | the fetch settles with any outcome; the cache does not change yet |
| `BedrockDiscovery.Discovery.ResumeCall` | extensions/amazon-bedrock/discovery.ts:408-428 | the owner stores or deletes its entry; a joined caller only returns or is rejected |
| `BedrockMigration.JsonRecord.MergeMissing` | extensions/amazon-bedrock/config-compat.ts:27-41 | the recursive in-place fill computes the merge, in any order of the entries |
| `BedrockMigration.MergedField` | extensions/amazon-bedrock/config-compat.ts:27-41 | each field of a merge: the target's own, the source's where the target reads `undefined`, or the merge of two records |
| `BedrockMigration.MergeIdempotent` | extensions/amazon-bedrock/config-compat.ts:27-41 | merging the same source again changes nothing |
| `BedrockMigration.MergeUnchangedIff` | extensions/amazon-bedrock/config-compat.ts:27-41 | merging leaves the target alone iff no unblocked, defined field of the source is missing in it at any depth |
| `BedrockMigration.ExplicitValuesWin` | extensions/amazon-bedrock/config-compat.ts:32-39 | a value the target holds survives the merge, at any depth |
| `BedrockMigration.NoPrototypeFieldIsAdded` | extensions/amazon-bedrock/config-compat.ts:7-11 | merging adds no field named `__proto__`, `prototype` or `constructor` |
| `BedrockMigration.MergeKeepsSettingsIff` | extensions/amazon-bedrock/discovery.ts:437-440 | the merge reads like the spread of legacy and plugin settings iff every legacy field is carried over |
| `BedrockMigration.FlatSettingsAreKept` | extensions/amazon-bedrock/discovery.ts:437-440 | for flat settings with ordinary names the merge always reads like the spread |
| `BedrockMigration.ExplicitUndefinedIsFilled` | extensions/amazon-bedrock/config-compat.ts:32-35 | a setting the plugin holds as `undefined` takes the legacy value |
| `BedrockMigration.MigrateAmazonBedrockLegacyConfig` | extensions/amazon-bedrock/config-compat.ts:62-107 | the migration in steps computes the specified configuration and report |
| `BedrockMigration.JsonRecord.EnsureRecord` | extensions/amazon-bedrock/config-compat.ts:17-25 | the record under the key, or a fresh empty one put in place of anything else |
| `BedrockMigration.JsonRecord.PruneEmptyModelsRoot` | extensions/amazon-bedrock/config-compat.ts:55-60 | `models` goes iff it is an empty record |
| `BedrockMigration.SettingsKeptIff` | extensions/amazon-bedrock/discovery.ts:437-440 | the settings discovery resolves are the same before and after migrating iff no legacy setting is lost in the merge |
| `BedrockMigration.PluginValuesWin` | extensions/amazon-bedrock/config-compat.ts:83-106 | every value in the plugin's discovery settings survives the migration, at any depth |
| `BedrockMigration.OtherSettingsKept` | extensions/amazon-bedrock/config-compat.ts:72-86 | everything off the legacy and the target path reads as before |
| `BedrockMigration.AfterMigration` | extensions/amazon-bedrock/config-compat.ts:72-106 | afterwards nothing is at the legacy path, and the target path holds the moved or merged settings |
| `BedrockMigration.ModelsAfterMigration` | extensions/amazon-bedrock/config-compat.ts:55-75 | `models` keeps its other fields, and goes if there are none |
| `BedrockMigration.SecondMigrationIsIdentity` | extensions/amazon-bedrock/config-compat.ts:67-70 | migrating a migrated configuration returns it with no changes |
| `BedrockMigration.ReportsMergedIff` | extensions/amazon-bedrock/config-compat.ts:95-106 | the report says "merged" iff a legacy field was missing at the top level of the plugin's settings |
| `BedrockMigration.ReportIs` | extensions/amazon-bedrock/config-compat.ts:62-107 | the whole report by cases, and no change at all without legacy settings |
| `BedrockMigration.NestedGainGoesUnreported` | extensions/amazon-bedrock/config-compat.ts:89-106 | a configuration of which a nested record gains a field: the effective settings change and the report says they were already set |
| `BedrockMigration.OddNameIsLost` | extensions/amazon-bedrock/config-compat.ts:29-31 | a legacy setting under any blocked or inherited name is lost in the merge |
| `ImportClosure.CollectRelativeImportGraph` | scripts/load-channel-config-surface.ts:117-144 | the worklist terminates, throws iff the entry does not exist, and otherwise returns exactly the files reachable from it |
| `ImportClosure.ResolveCommonAncestor` | scripts/load-channel-config-surface.ts:146-163 | fails iff the list is empty; otherwise the loop computes the ancestor that the next lemmas describe |
| `ImportClosure.NarrowTo` | scripts/load-channel-config-surface.ts:154-160 | the inner loop climbs until the candidate's relative path no longer climbs past a segment |
| `ImportClosure.AncestorExactly` | scripts/load-channel-config-surface.ts:146-163 | the ancestor is the longest common prefix, or one segment more exactly when that prefix is itself listed later and all other paths share one child of it |
| `ImportClosure.AncestorIsLongestIff` | scripts/load-channel-config-surface.ts:146-163 | the loop returns the longest common prefix iff it does not overshoot |
| `ImportClosure.ParentListedSecond` | scripts/load-channel-config-surface.ts:154-160 | a concrete list for which the loop stops below the common prefix |
| `ImportClosure.CommonPrefixIsLongest` | scripts/load-channel-config-surface.ts:146-163 | the reference prefix is common to all paths, and every common prefix is a prefix of it |
| `Jpeg.ReadJpegDimensions` | scripts/update-clawtributors.ts:546-590 | the loop terminates on every byte string, reads only inside the buffer, and computes the scan that the next lemmas describe |
| `Jpeg.FoundIff` | scripts/update-clawtributors.ts:546-590 | the scanner answers a size iff the bytes behind SOI are stand-alone markers and segments of ITU-T T.81 (section B.2.2), or one of the two other things it steps over, then a frame header of that size that fills ten bytes with what follows |
| `Jpeg.StandardFileIsRead` | scripts/update-clawtributors.ts:572-586 | on SOI, any such items without fill bytes and a standard SOFn header the encoded size is returned |
| `Jpeg.LostIffBareHeaderAtEnd` | scripts/update-clawtributors.ts:548 | without fill bytes, the header is missed iff it has no component data and ends the file |
| `Jpeg.ScanSkipsItems` | scripts/update-clawtributors.ts:549-567 | segments, stand-alone markers, stray bytes and what FF 00 or FF FF is misread as are stepped over exactly |
| `Jpeg.FrameWasThere` | scripts/update-clawtributors.ts:568-586 | whenever the scan finds a size, the bytes parse as such items and a frame header of that size |
| `Jpeg.NoHeaderNothingFound` | scripts/update-clawtributors.ts:546-590 | nothing is found where items are not followed by a frame header |
| `Jpeg.BareHeaderIsMissed` | scripts/update-clawtributors.ts:548 | a concrete file whose header is not read |
| `Jpeg.FillFoundIff` | scripts/update-clawtributors.ts:549-588 | where fill bytes stand before a marker, a size is found iff a frame header of that size stands behind the length that the next two bytes are taken for |
| `Jpeg.FillHidesHeader` | scripts/update-clawtributors.ts:568-570 | with fill bytes before a frame header that length is at least 49152, so that the header is skipped |
| `Jpeg.FilledShortFileIsLost` | scripts/update-clawtributors.ts:569-571 | a standard header with a fill byte before it is not read if fewer than 49154 bytes are left |
| `Utf16.SliceUtf16Safe` | src/utils.ts:88-115 | for every string and all bounds, negative, swapped or out of range, the slice is the encoding of the code points that lie wholly inside the range |
| `Utf16.TruncateUtf16Safe` | src/utils.ts:117-123 | truncation is the encoding of the leading code points that lie within the limit |
| `Utf16.SliceOfText` | src/utils.ts:88-115 | on the encoding of any text the slice is well formed (section 2.1 of RFC 2781) |
| `Utf16.InsideIsSlice` | src/utils.ts:100-114 | moving each bound off a surrogate pair selects exactly the code points wholly inside |
| `Utf16.BoundsAsCounted` | src/utils.ts:91-98 | bounds count as in `slice`: negative from the end, clamped to the string, a missing end as the length; in the wrong order they are swapped |
| `Utf16.LimitIsWholePart` | src/utils.ts:118 | the limit is the whole part of the number, and at least zero |
| `Utf16.DecodeUndoesEncode` | src/utils.ts:80-86 | decoding the encoding of any scalar values gives them back |
| `Utf16.EncodeUndoesDecode` | src/utils.ts:80-86 | every string is the encoding of what it decodes to |
| `Utf16.WellFormedIff` | src/utils.ts:80-86 | a string is well formed iff it is the encoding of some scalar values |
| `Utf16.TruncatedLength` | src/utils.ts:117-123 | a longer string is cut to the limit, or to one unit less iff the limit falls within a pair, and stays well formed |
| `Utf16.TruncationIsLongest` | src/utils.ts:117-123 | one more code point would not fit |

## Left out

- Sorting by `localeCompare`: the order within a component, of the components, of imports and of fallback keys. The sorts are arbitrary reorderings and fallback keys a set.
- Finding imports: walking the TypeScript syntax tree and the import regular expression. The import relation is an input.
- File, network, process and timer mechanics, and standard output and error. They are events in any order, or arbitrary answers.
- Hashing, JSON text, dates and generated file text. Hashes are abstract functions; `LocaleSync` asks that the cache keys of the source texts differ where a result needs it.
- `LocaleSync.CacheKeysDiffer`: the code joins the parts of a cache key with bars before hashing; that parts with bars in them could meet is left out.
- Names inherited from `Object.prototype` and `__proto__` keys outside the migration and the rebuilding of trees (a session called `__proto__`, say), and the order JavaScript gives to integer-like keys.
- `Translations.RebuildPrunes`: a write that lands on an inherited value misses the tree; that it may throw, or change how later names are answered, is left out. `RoundTripIff` and `FlatRoundTripIff` do not depend on it: what was to be written there is lost either way.
- Strings are sequences of Dafny characters, except in `Utf16`, where they are code units.
- `Translations.TranslationTree.SetNestedValue`: nested objects are values that are put back on the way up, so sharing of one object between two trees is not captured.
- `BedrockMigration.JsonRecord.MergeMissing`: nested records are values that are put back after the recursive call. The one effect of sharing that a caller can observe, the report after a shallow clone, is modelled by `SharedAfter`.
- `BedrockMigration.MigrateAmazonBedrockLegacyConfig`: the wording of the change messages; which message is reported is modelled. A discovery setting of the plugin that is not a record counts as no settings.
- `BedrockDiscovery.Discovery.ResumeCall`: a caller that joined another caller's fetch is rejected with it, as in the code; nothing is claimed about how callers handle that. The contents of the model list and the one-time warning are left out.
- `ToggleLock.ToggleStore.InvokeToggle`: one state path has one lock here; the map from paths to locks is left out.
- `PromptStrip.StripRecalledContextNoise`: the patterns for status lines are an arbitrary predicate on lines.
- `TranslateBatch.TranslateItems`: a failure while the client is being reset, delays and progress lines.
- `RpcClient.PiRpcClient.HandleStdoutLine`: extracting the text of an `agent_end`; it yields any text or an error.
- `WorkerPool.ConcurrentMap.ResumeWorker`: the mapper's answer for an item is a function of the item and its index; when it comes is arbitrary.
- `Utf16.SliceUtf16Safe`: bounds that are not integers, and `NaN` or infinite limits of `truncateUtf16Safe`.
- Prompt text, provider catalogs, command line parsing, README rewriting and release scripts, which hold no further algorithm.
