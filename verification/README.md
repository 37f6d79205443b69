# MaruPop in Dafny

This project models the parts of MaruPop, a Japanese pop-up dictionary, whose correctness cannot be
seen from one function: the deconjugation search, the dictionary stores with the protocol that
replaces them under live readers, the record codec, the result order with its early cut, the capture
side with its tile grid and request scheduling, and the rewriting of recognized text. `dafny verify
dfyconfig.toml` checks everything.

The model keeps the source's branches, constants and error results. Code that updates state step by
step is a class or a method with a loop, proved against a function that says what it computes; what
the program promises is then proved of that function, over every input and every run.

- **Deconjugation.** `DeconjRules` expands rule objects and fills the buckets, and `DeconjLoaded` says what a
  loaded file deconjugates. `DeconjSpec` says what a search visits, accepts and reports, for any rule list.
  `DeconjSearch` is the search itself, over heap-allocated process nodes compared by pointer. `DeconjExact`
  and `DeconjFilter` show that the answer is exactly the derivations of the rule set with the fewest proper
  steps for their lemma and word class, `DeconjLabels` which steps those are and what that means for the
  answer, `DeconjPrefix` that the search does not depend on the reported untouched prefix, which
  `DeconjVariants` uses; `DeconjTermination` when the search ends.
- **Stores.** `StoreIndex` and `KeyFilter` are the writer, the hashed key sidecar, the binary search and
  the cache of decoded records. `StoreFiles` holds the file operations of one store as
  generation-tagged contents, `StoreOpening` says what opening a store makes of them, and
  `DictionaryManager`, over `ManagerState`, `ManagerSteps` and `DictionaryOrder`, is the manager with the
  steps of its own thread, of import threads and of lookup threads.
- **Codec.** `Cbor` has data items as bytes (RFC 8949), `CborReader` the streaming reader with its
  one-head look-ahead, `Records` and `RecordFields` the record shapes and what each reads back,
  `RecordEncoder` and `RecordDecoder` the two halves of the codec, `Codec` what they promise together,
  `RecordCodec` that the store may be built over it. `WireExamples` has the bytes of RFC 8949, appendix A.
- **Ranking.** `Ranking` and `RankingOrder` are the fourteen-criterion comparator, `RankingCriteria` what each
  criterion puts first, `PreCut` the cut on the undecorated order before the memoised decoration, over
  `StableSorting`.
- **Capture and recognition.** `ScanRegion` is the scan ladder and the tile grid, `CaptureRequests` the
  latest-wins request state, the watchdog and the one copy per frame, `OcrCorrections` the correction
  passes and `OcrMeaning` where a rule applies and what becomes of the line. `Arithmetic` and `Basics` are
  shared helpers.

## Findings

Where a property the documentation or the obvious reading promises does not hold of the code, the code
is modelled as it is, a lemma gives a case, and another says when the property does hold.

- A rule set can make the search run forever. Tags and labels rule that out exactly when the improper rules
  form no tag cycle (`EndsExactly`): without one every search ends, whatever the endings, and with one there
  are endings for which none does. The smallest case maps an ending to itself under its own tag with an
  empty label, which the loader accepts (`LoopingRulesNeverEnd`).
- The full result order is not a strict weak order once two frequency dictionaries are enabled, counting for
  kanji results the dictionary of their own record, so the stable sort is called outside its contract
  (`SecondaryFrequenciesCycle`); with at most one it always is (`SortIsDefinedExactly`). The pre-cut is
  proved for lists on which the order is one, and `MayOrder` says which those are before the call.
- The walk over the lower-priority frequency dictionaries is documented to stop at the first dictionary that
  answers for one result only. It goes on behind it (`SecondaryRankFirst`).
- The memo key of the decoration does not tell no reading from one empty reading (`HeadwordKeyExact`). The
  memo changes no result exactly when results with one key get the same hits (`MemoChangesNothing`).
- A removal stopped after it deleted the staged database of an open store can leave a key filter that a
  later promotion puts beside the wrong database (`InterruptedRemovalMisindexes`); that is the only place
  where stopping a removal breaks the agreement (`InterruptedRemoval`), and a removal that fails in it does
  too (`FailedRemoval`).
- openStore() treats a promotion that failed for another reason than an open file like a success, so an
  import can be marked as applied while the store it replaces is published (`PublishSuperseded`). It happens
  exactly when the newer database is staged, its promotion is denied, no import of the id runs and no open
  key filter makes the opening wait (`OpensStaleExactly`, `OpenStore`, `ApplyImportResult`); it lasts until
  the entry's store is closed. In every other case the published store is as new as the last applied
  import (`PublishedAreFresh`).
- remove() costs finished imports that wait to be applied: all that were reported, and of the others those
  newer than the database that stays open (`Remove`, `RemovalLosesImport`). Imports that still run and later
  ones keep every promise.
- The codec version is narrowed to 32 bits before it is compared: a payload of version 2^32 + 1 is read as
  version 1 (`HeaderReadExactly`).
- The documented number of tiles holds for even tile sizes; for odd ones `TileCountBounds` says exactly when,
  which is never on outputs longer than the square of the size. The documented quarter of a tile around the
  request's centre fails exactly for sizes that leave one when divided by four (`QuarterClearExactly`). A
  tile two pixels wide is not its own tile when the request lies right of the desktop origin and more than
  one pixel from the output's edge (`TileOfTile`).
- Left of or above the desktop origin, a region that has reached its limit on one axis can slip one pixel
  off its predecessor when the other axis grows (`GrownKeepsCurrent`).
- The chain of refused grabs in issue() is documented as one deep. It is one deep exactly when the handlers of
  the second refusal request nothing, and one deeper for every handler that keeps requesting (`ChainDepth`,
  `WlrFrameSource.Issue`).

## Model

| member | source | states |
|---|---|---|
| DeconjRules.SelectIndicesExact | src/deconj/deconjugator.cpp:281-285 | a bucket or per-tag list names exactly the matching rules, each once, in file order |
| DeconjRules.AddRule | src/deconj/deconjugator.cpp:278-285 | pushing a virtual rule keeps the last-character index, the per-tag lists, the empty-ending bucket and the longest ending right |
| DeconjRules.Load | src/deconj/deconjugator.cpp:228-295 | a file is loaded exactly when every rule object passes the length checks; the rules come in file order and every bucket is right |
| DeconjLoaded.ExpandedPlace | src/deconj/deconjugator.cpp:262-290 | ending i of rule object n becomes one virtual rule, behind those of all earlier endings, with that ending, its dictionary ending, its tags and the label |
| DeconjLoaded.ExpandedOrigin | src/deconj/deconjugator.cpp:262-290 | every virtual rule comes from exactly one such place |
| DeconjLoaded.LoadedRuleDeconjugates | src/deconj/deconjugator.cpp:271-276 | for any loaded file: stem + inflected ending gives, in the first generation, stem + dictionary ending under the decTag and with the label |
| DeconjLoaded.LoadedRulesChain | src/deconj/deconjugator.cpp:433-449 | a second rule object goes on from there when its conTag is the first one's decTag |
| DeconjLoaded.FirstGenerationOrigin | src/deconj/deconjugator.cpp:414-430 | nothing else is in the first generation |
| DeconjSpec.CandidateExact | src/deconj/deconjugator.cpp:433-449 | a form consults each admissible rule once: those its last character or an empty ending selects, of any tag for the seed and of its own tag after |
| DeconjSpec.BucketsRefineFlatScan | src/deconj/deconjugator.cpp:480-485 | the bucketed lookup fires a rule exactly when a scan of all virtual rules would |
| DeconjSpec.SuccessorTrails | src/deconj/deconjugator.cpp:427-430 | the forms pushed for one form extend its chain by one rule each and are distinct |
| DeconjSearch.RepeatTestIsPerParent | src/deconj/deconjugator.cpp:355-378 | the generation-wide repeat test by parent pointer only ever meets forms of the same parent |
| DeconjSearch.ApplyRule | src/deconj/deconjugator.cpp:380-431 | one form is pushed exactly when all guards pass and no repeat exists, with the text, tag, label and step count of the rule relation |
| DeconjSearch.ApplyBucket | src/deconj/deconjugator.cpp:433-449 | the pushed forms are the successors under the bucket, or under its list for the form's tag |
| DeconjSearch.ExpandForm | src/deconj/deconjugator.cpp:480-485 | both buckets of one form push exactly its children |
| DeconjSearch.ScanProcessed | src/deconj/deconjugator.cpp:493-509 | the in-place scan leaves what the scan over step counts leaves, entry by entry, with its early stop |
| DeconjSearch.AcceptForm | src/deconj/deconjugator.cpp:493-512 | a terminal form is added unless a strictly better path to its lemma and word class was accepted, and strictly worse ones go |
| DeconjSpec.GenerationTrails | src/deconj/deconjugator.cpp:476-516 | no two forms of a generation share a process node, and generation n holds chains of n rules |
| DeconjSearch.RunGeneration | src/deconj/deconjugator.cpp:479-513 | one round pushes the next generation and offers every form to the filter in order |
| DeconjSearch.RunSearch | src/deconj/deconjugator.cpp:476-516 | the worklist loop visits exactly the generations of the specification until one is empty |
| DeconjSearch.Deconjugate | src/deconj/deconjugator.cpp:463-521 | the answer, in order, and the reported prefix are those of the specification |
| DeconjExact.VisitedAreDerivations | src/deconj/deconjugator.cpp:380-431 | every visited form ends a tag-chained, guard-respecting derivation from the surface text |
| DeconjExact.UndoRebuildsSurface | src/deconj/deconjugator.cpp:414-430 | undoing a derivation from its lemma, decEnd back to conEnd, rebuilds the surface text |
| DeconjExact.GenerationCovers | src/deconj/deconjugator.cpp:476-516 | every derivation of n rules has a form with its lemma, tag and labels in generation n, despite the de-duplication |
| DeconjExact.DerivationsAreVisited | src/deconj/deconjugator.cpp:476-516 | a search that ends has visited a representative of every derivation, however long |
| DeconjFilter.ScanBeaten | src/deconj/deconjugator.cpp:499-503 | a strictly better entry stops the scan before anything was deleted, so the early break is harmless |
| DeconjFilter.ScanUnbeaten | src/deconj/deconjugator.cpp:493-509 | without a better entry the scan removes every strictly worse one and nothing else |
| DeconjFilter.AcceptedAreBest | src/deconj/deconjugator.cpp:490-512 | after any visited forms the accepted ones are, as a multiset, the terminal forms with the least step count for their text and tag |
| DeconjFilter.AnsweredIsBest | src/deconj/deconjugator.cpp:463-521 | every answered form is a derivation with the fewest proper steps for its lemma and word class |
| DeconjFilter.BestIsAnswered | src/deconj/deconjugator.cpp:463-521 | every fewest-step derivation is answered by a form with its lemma, tag and labels |
| DeconjFilter.AnswerExact | src/deconj/deconjugator.cpp:463-521 | a lemma, tag and label list is answered if and only if a fewest-step derivation has them |
| DeconjFilter.AnswerUndoes | src/deconj/deconjugator.cpp:463-521 | the rule chain of every answered form, undone from the lemma, rebuilds the surface text |
| DeconjLabels.StepsArePlain | src/deconj/deconjugator.cpp:424-425 | the step count of a path is one for its first step and one for each later one whose label is neither empty nor in parentheses |
| DeconjLabels.StepCounts | src/deconj/deconjugator.cpp:424-425 | one more step counts exactly when its label is neither empty nor begins with a parenthesis |
| DeconjLabels.AnswerByLabels | src/deconj/deconjugator.cpp:463-521 | a label list is answered for a lemma and tag if and only if the tag is one of the 24 word classes, a derivation has the labels and none has fewer that count |
| DeconjLabels.LongerIsNotAnswered | src/deconj/deconjugator.cpp:493-509 | of two derivations of one lemma and tag the one with more steps that count is not answered |
| DeconjLabels.OneMoreLabel | src/deconj/deconjugator.cpp:424-425 | one step more, anywhere behind the first, adds one to what counts exactly when its label is plain |
| DeconjLabels.AtMostEight | src/deconj/deconjugator.cpp:405-406 | no visited form has a ninth step that counts |
| DeconjLabels.EightStepsAnswered | src/deconj/deconjugator.cpp:405-406 | eight steps that count are answered exactly for the 24 word classes, and nine never are |
| DeconjPrefix.UntouchedPrefixIsSimulation | src/deconj/deconjugator.h:157-163 | two equally long texts that agree from the prefix reported for one of them get the same forms in the same order with the same chains, differing only in those code units, and the same prefix |
| DeconjPrefix.AnswerKeepsPrefix | src/deconj/deconjugator.h:157-163 | every answered form still carries the untouched prefix of the surface text |
| DeconjLoaded.UntouchedExactly | src/deconj/deconjugator.h:157-163 | the reported prefix is what the longest ending of any rule leaves of the shortest visited form |
| DeconjPrefix.RegraftVisited | src/deconj/deconjugator.cpp:470-486 | the two searches agree generation by generation, not only in their answers |
| DeconjPrefix.RegraftAccepted | src/deconj/deconjugator.cpp:490-512 | the filter commutes with replacing the untouched prefix |
| DeconjTermination.RankIsBounded | src/deconj/deconjugator.cpp:424-425 | without a tag cycle no chain of improper rules is longer than the rule list |
| DeconjTermination.ImproperTailBound | src/deconj/deconjugator.cpp:424-425 | a chain ends on at most as many improper steps as the longest improper walk of the tag graph has |
| DeconjTermination.VisitedAreBounded | src/deconj/deconjugator.cpp:405-406 | every visited form has at most 8 proper steps, and its chain at most 8 runs of one step and as many improper ones as the longest improper walk has |
| DeconjTermination.SearchEnds | src/deconj/deconjugator.cpp:476-516 | when improper walks are bounded by r, no generation after 8 (r + 1) holds a form, on any text |
| DeconjTermination.CycleNeverEnds | src/deconj/deconjugator.cpp:476-516 | for every improper tag cycle there are endings for which no generation is empty |
| DeconjTermination.EndsExactly | src/deconj/deconjugator.cpp:476-516 | every rule set with given tags and labels ends on every text if and only if its improper rules form no tag cycle |
| DeconjTermination.LoopingRulesNeverEnd | src/deconj/deconjugator.cpp:476-516 | the smallest such rule set, which the loader accepts |
| DeconjVariants.SubstitutedForms | src/lookup/ocrvariants.cpp:88-105 | every form with one code unit replaced, or nothing exactly when some form is too short |
| DeconjVariants.VariantForms | src/lookup/ocrvariants.cpp:214-222 | inside the untouched prefix the derived forms never fail and are exactly what deconjugating the variant answers, with the same prefix |
| DeconjVariants.VariantAnswer | src/lookup/ocrvariants.cpp:83-87 | the search of a variant answers the key's forms with the one code unit replaced |
| StoreFiles.StoreDirectory.RemoveFile | src/dict/store.cpp:125-139 | a delete leaves the file absent unless it is open, or is there and cannot be deleted for another reason |
| StoreFiles.StoreDirectory.RenameOver | src/dict/store.cpp:98-120 | a move replaces its target in one step, or fails for an open target or another reason |
| StoreFiles.StoreDirectory.PromoteStagedStore | src/dict/store.cpp:155-180 | the promotion runs its file operations in order, stops at the first that fails and reports how it ended |
| StoreFiles.PromotionKeepsAgreement | src/dict/store.cpp:155-180 | stopping a promotion after any file operation keeps every key filter beside the database it indexes, and the newest generation on disk |
| StoreFiles.PromotionOutcome | src/dict/store.cpp:155-180 | what each result of a promotion means for the files; Pending means that a live store holds the database and the staged files still wait |
| StoreFiles.StagedDatabaseLeft | src/dict/store.cpp:171-176 | a promotion that is not Pending leaves the staged database behind, and the old one in place, exactly when the move, or the delete before it, is denied |
| StoreFiles.PromotedTwice | src/dict/store.cpp:155-180 | promoting again what a promotion left changes nothing, and does not begin to wait |
| StoreFiles.StoreDirectory.RemoveStoreFiles | src/dict/store.cpp:182-197 | a removal deletes in order what is not open, fails at the first other error, and otherwise is pending or removed as something or nothing is left |
| StoreFiles.RemovalKeepsAgreement | src/dict/store.cpp:182-197 | a completed removal keeps the sidecar agreement |
| StoreFiles.InterruptedRemoval | src/dict/store.cpp:186-195 | a removal stopped between two deletions keeps the agreement except in one exactly described state |
| StoreFiles.FailedRemoval | src/dict/store.cpp:189-193 | a removal that fails keeps the agreement except when the delete of the staged key filter fails in that state |
| StoreFiles.InterruptedRemovalMisindexes | src/dict/store.cpp:182-197 | in that state the next promotion puts a key filter beside the wrong database |
| StoreFiles.RemovalLosesImport | src/dict/dictionarymanager.cpp:559-603 | removing an id whose finished import is not applied keeps that import exactly when the open database is as new |
| StoreFiles.StoreDirectory.FinishStore | src/dict/store.cpp:544-655 | the files a finished import leaves: in place, or staged beside an open store |
| StoreFiles.FinishKeepsAgreement | src/dict/store.cpp:544-655 | a finished import keeps the agreement and is the newest generation on disk: in place, or staged beside an open store, whose files it leaves alone; its key filter is there unless its move was denied |
| StoreOpening.PromotionOpens | src/dict/dictionarymanager.cpp:431-439 | a promotion that need not wait leaves in place what is then opened; one that must wait changes nothing when tried again |
| StoreOpening.OpensStaleExactly | src/dict/dictionarymanager.cpp:412-461 | a database older than one on disk is opened if and only if the newer one is staged, its promotion is denied, no import runs and no open key filter makes the opening wait |
| StoreOpening.OpenedOnOlder | src/dict/dictionarymanager.cpp:412-461 | the same of an entry, told from its flags, its files and their readers before the call |
| StoreOpening.OpensBesideNothingStaged | src/dict/dictionarymanager.cpp:424-439 | a store opens with nothing staged beside it, unless no import runs and the promotion was denied |
| StoreOpening.OpensWithFilter | src/dict/dictionarymanager.cpp:441-455 | an opened store consults the key filter of its own database exactly when one is in place and can be read |
| StoreOpening.OpensWhenItCan | src/dict/dictionarymanager.cpp:463-468 | a closed entry is open after publishing exactly when it is enabled, current and imported and its files can be opened |
| StoreOpening.ReadersAreWaitedFor | src/dict/store.cpp:155-180 | where open files are locked, a promotion waits for every live store whose database or key filter it would replace, in the second case without changing a file |
| StoreOpening.OnlyReadersAreWaitedFor | src/dict/store.cpp:155-180 | it waits for nothing else |
| StoreOpening.OpenedTwice | src/dict/dictionarymanager.cpp:412-461 | opening again what was opened, or could not be, changes nothing |
| StoreOpening.OpenedAgain | src/dict/dictionarymanager.cpp:718-735 | opening one entry and then publishing does to every entry what one opening of it does |
| StoreOpening.PublishedAfterRetry | src/dict/dictionarymanager.cpp:233-271 | what a retry and the publishing behind it may make of the files of an id |
| ManagerState.HandlesComeFromEntries | src/dict/dictionarymanager.cpp:472-484 | every published handle is that of an enabled, current, open entry |
| ManagerState.HandlesExact | src/dict/dictionarymanager.cpp:472-484 | a handle is published if and only if it is that of an enabled, current, open entry |
| ManagerState.HandlesInPriorityOrder | src/dict/dictionarymanager.cpp:470-484 | the published handles are in strictly increasing priority |
| ManagerState.CountAfterReport | src/dict/dictionarymanager.cpp:823-825 | counting a finished job out keeps the running count of every id |
| DictionaryManager.DictionaryManager.constructor | src/dict/dictionarymanager.cpp:190-225 | a loaded list satisfies what every run keeps |
| DictionaryManager.DictionaryManager.OpenStore | src/dict/dictionarymanager.cpp:412-461 | exactly when an entry opens, waits or is reported unavailable and what that leaves on disk; it opens on a database older than one on disk if and only if that one's promotion is denied and nothing makes it wait |
| DictionaryManager.DictionaryManager.PublishSnapshot | src/dict/dictionarymanager.cpp:463-498 | the snapshot is the enabled, current, open entries in list order; every entry was opened as its own files at the start allow, and is settled |
| DictionaryManager.DictionaryManager.RetryRemovals | src/dict/dictionarymanager.cpp:238-248 | every recorded removal without a running import has its files deleted, except those a live store holds open, and is dropped exactly when nothing is left |
| DictionaryManager.DictionaryManager.RetryPromotions | src/dict/dictionarymanager.cpp:249-258 | every waiting store without a running import is promoted as far as its readers allow, and waits on exactly when they do not; other files stay |
| DictionaryManager.DictionaryManager.RetryPending | src/dict/dictionarymanager.cpp:233-271 | what becomes of the files of every id: recorded removals are carried out, waiting stores promoted, running imports and the newest generation of any other id kept; pending work has an active timer, and the delay is 250 ms, or doubled up to 4000 ms exactly when nothing progressed |
| DictionaryManager.DictionaryManager.CreateImportJob | src/dict/dictionarymanager.cpp:776-836 | a job exists exactly for a listed entry with a source, and its id counts as running |
| DictionaryManager.DictionaryManager.EndImport | src/dict/store.cpp:544-655 | on the import thread: it fails exactly when its database can neither be put in place nor staged and changes no file then; a success leaves the files of finish() and is the newest generation on disk, and other ids are untouched |
| DictionaryManager.DictionaryManager.JobFinished | src/dict/dictionarymanager.cpp:823-835 | a reported success takes its id, and no other, off the pending removals; a failed or killed job leaves them |
| DictionaryManager.DictionaryManager.AdoptPendingRemovals | src/dict/dictionarymanager.cpp:294-309 | recorded removals are carried out, and kept exactly as far as files are left, except for ids that hold an import, whose newest generation stays |
| DictionaryManager.DictionaryManager.ApplyImportResult | src/dict/dictionarymanager.cpp:839-889 | the id of an applied import of generation g is published exactly when enabled and openable on the files and readers before the call, and on a database older than g exactly when its promotion is denied; its entry asks for another import only when its database is of another schema; a lost import raises no promise |
| DictionaryManager.DictionaryManager.RequestStore | src/dict/dictionarymanager.cpp:718-735 | one entry is opened, a disabled one too, and the rest as publishing does; the answer tells whether the entry is open afterwards |
| DictionaryManager.DictionaryManager.Renumber | src/dict/dictionarymanager.cpp:373-382 | the list is stably sorted by priority and numbered 1 to n |
| DictionaryManager.DictionaryManager.Add | src/dict/dictionarymanager.cpp:542-557 | the new entry, imported or not, is placed by its priority, or last without one |
| DictionaryManager.DictionaryManager.Move | src/dict/dictionarymanager.cpp:605-627 | the entry stands at the clamped index, the others keep their order |
| DictionaryManager.DictionaryManager.SortDictionaries | src/dict/dictionarymanager.cpp:629-660 | the list is the stable sort by first matching rule, and the result tells exactly whether an entry moved or was enabled |
| DictionaryManager.DictionaryManager.Remove | src/dict/dictionarymanager.cpp:559-603 | any other entry is dropped and a built-in one stays as it was before its download, all other ids stay; files that stay are recorded as a pending removal, and exactly the finished imports that nothing saves are lost |
| DictionaryManager.DictionaryManager.SetEnabled | src/dict/dictionarymanager.cpp:662-674 | the one entry is enabled or disabled, the others stay as they are; a disabled dictionary is not published, and an enabled one is opened as its files allow |
| DictionaryManager.DictionaryManager.CloseStore | src/dict/dictionarymanager.cpp:739-747 | the list stays as it is; the entry is open afterwards exactly when it is enabled, current and imported and its files and their other readers allow it, on a superseded database only while the promotion is still denied |
| DictionaryManager.DictionaryManager.SetOptions | src/dict/dictionarymanager.cpp:688-703 | a dictionary whose options ask for a new import is left open and not published; otherwise it is as it was |
| DictionaryManager.DictionaryManager.SetSourcePath | src/dict/dictionarymanager.cpp:705-716 | the list stays as it is, and a store that could not be opened is tried again |
| DictionaryManager.DictionaryManager.Rename | src/dict/dictionarymanager.cpp:676-686 | the one entry is renamed, unless the name is empty |
| DictionaryManager.DictionaryManager.TakeSnapshot | src/dict/dictionarymanager.cpp:393-397 | a lookup thread may hold any published store for as long as it likes |
| DictionaryManager.DictionaryManager.PublishedAreFresh | src/dict/dictionarymanager.cpp:412-498 | in every reachable state: published stores are in priority order and, unless opened while their replacement was denied, not older than the last applied import; that import or a newer one is on disk and waits for no removal; every store in use consults its own key filter |
| DictionaryManager.DictionaryManager.Run | src/dict/dictionarymanager.cpp:227-889 | every interleaving of manager, import-thread and lookup-thread steps keeps the invariant |
| ManagerSteps.RemovalIsSafe | src/dict/dictionarymanager.cpp:238-246 | deleting the files of a recorded removal without a running import loses no applied import, and no finished one that was not lost already |
| ManagerSteps.FinishIsSafe | src/dict/store.cpp:544-655 | an import finishing beside any manager state keeps the file agreement, the freshness floor and the other jobs |
| ManagerSteps.AppliedIsPublished | src/dict/dictionarymanager.cpp:880-882 | publishing after an applied import publishes its id exactly when it is enabled and openable, on the generation OpensOn names |
| ManagerSteps.OlderIsPublished | src/dict/dictionarymanager.cpp:880-882 | what is published is older than the import exactly when the store opened is |
| ManagerSteps.LostExactly | src/dict/dictionarymanager.cpp:559-603 | the jobs whose import a removal leaves without files are those told by their phase and the open database before it |
| ManagerSteps.RemovedIds | src/dict/dictionarymanager.cpp:585-597 | after a removal, numbering and publishing a built-in id is listed as one that was not downloaded, any other is gone, and no other id comes or goes |
| ManagerSteps.ApplyKeeps | src/dict/dictionarymanager.cpp:874-880 | applying an import raises the promise of its id and clears its staleness, unless a removal lost it |
| DictionaryManager.PublishSuperseded | src/dict/dictionarymanager.cpp:433-439 | a run from a freshly loaded list to an applied import whose superseded store is published |
| DictionaryOrder.RuleSortIsStable | src/dict/dictionarymanager.cpp:629-660 | the automatic sort is the stable sort of the list by first matching rule |
| DictionaryOrder.RuleSortEnables | src/dict/dictionarymanager.cpp:629-660 | the automatic sort keeps every entry, enabled when it was or when a rule recognizes it, and otherwise as it was but for its number |
| DictionaryOrder.RuleSortTwice | src/dict/dictionarymanager.cpp:629-660 | sorting a list it has sorted changes nothing |
| DictionaryOrder.UnchangedSort | src/dict/dictionarymanager.cpp:629-660 | when no entry moved and none was enabled the numbered list is as it was |
| DictionaryOrder.MovedListKeeps | src/dict/dictionarymanager.cpp:605-627 | a move puts one entry at its target and keeps the order of all others |
| DictionaryOrder.AddedAt | src/dict/dictionarymanager.cpp:542-557 | an added entry stands behind the one of its priority, and the others keep their order |
| DictionaryOrder.RenumberedIsStable | src/dict/dictionarymanager.cpp:373-382 | renumbering sorts by priority with ties in their order, and then numbers |
| KeyFilter.KeyFilterWriter.Write | src/dict/keyfilter.cpp:54-88 | the written hashes are the added ones, each once, in increasing order, with the longest key length |
| KeyFilter.Unique | src/dict/keyfilter.cpp:54-60 | dropping neighbours that are equal from a sorted list leaves each value once |
| KeyFilter.ContainsHash | src/dict/keyfilter.cpp:169-172 | the binary search finds exactly the stored hashes |
| KeyFilter.Contains | src/dict/keyfilter.cpp:160-167 | a key is rejected exactly when the filter is empty, the key is too long or its hash is not stored |
| StoreIndex.StoreWriter.AddRecord | src/dict/store.cpp:483-514 | a record is stored once however often it is added, and registered under its non-empty keys |
| StoreIndex.StoreWriter.AddKeys | src/dict/store.cpp:516-542 | the record is registered under exactly the non-empty keys, or those before the one whose insertion fails, which sticks |
| StoreIndex.StoreWriter.Finish | src/dict/store.cpp:544-655 | a finished store holds exactly the registered pairs, one row per distinct record, with a key filter of exactly its keys, and meta rows with the number of records, of different key hashes and the length of the longest key; there is none after a failed write, commit, sidecar or meta row |
| StoreIndex.Store.SetRecordCacheCapacity | src/dict/store.cpp:311-319 | the cache keeps its most recently used entries up to the new capacity |
| StoreIndex.Store.DecodeCached | src/dict/store.cpp:321-345 | the record of the row is answered; a hit moves to the front of the cache and leaves the others in order, a miss goes in front of as many of the others, in order, as there is room for |
| StoreIndex.Store.Touch | src/dict/store.cpp:323-330 | the entry of the id moves to the front, the others keep their order, and list and index stay in bijection |
| StoreIndex.Store.Find | src/dict/store.cpp:347-378 | for a non-empty key exactly the distinct records registered under it, in row order, whatever the hash function, the capacity and the history |
| StoreIndex.NoRowsWithoutHash | src/dict/store.cpp:350-355 | a key the filter rejects has no registered record |
| StoreIndex.AnswersAreRegistered | src/dict/store.cpp:356-377 | the rows of a key hold each registered record once |
| Cbor.Shortest | src/dict/codec.cpp:22-36 | the width the writer chooses is the narrowest its argument fits |
| Cbor.UnsignedOfBigEndian | src/dict/codec.cpp:22-36 | a big-endian argument reads back as the number written |
| Cbor.HeadIsSelfDelimiting | src/dict/codec.cpp:154-180 | a head is decided by its own bytes |
| Cbor.SelfDelimiting | src/dict/codec.cpp:154-180 | two well-formed items that begin the same bytes are equal and end at the same place |
| CborReader.SettleReaches | src/dict/codec.cpp:154-180 | over whole or cut-short bytes the reader stands at the right item or reports an error, and reports none on whole bytes |
| CborReader.NextSteps | src/dict/codec.cpp:186-197 | stepping over a number or simple value leads to the item behind it |
| CborReader.EnterSteps | src/dict/codec.cpp:163-173 | entering an array or map of either length form leads to its first item |
| CborReader.LeaveSteps | src/dict/codec.cpp:177-184 | leaving a finished container leads to the item behind it |
| CborReader.StringSteps | src/dict/codec.cpp:230-242 | reading a string, in one piece or in chunks, yields its content and leads to the item behind it |
| RecordEncoder.Encoder.StringList | src/dict/codec.cpp:59-65 | the bytes written are those of one definite-length array of the strings |
| RecordEncoder.Encoder.StringListList | src/dict/codec.cpp:75-81 | the bytes written are those of one array of string lists |
| RecordEncoder.Encoder.WriteSenseTags | src/dict/codec.cpp:83-89 | the bytes written are those of the two-element array of shared and per-sense tags |
| RecordEncoder.Encoder.Image | src/dict/codec.cpp:91-100 | the bytes written are those of the five-element image array |
| RecordEncoder.Encoder.OptionalImage | src/dict/codec.cpp:102-108 | an image array, or null |
| RecordEncoder.Encoder.LoanwordSources | src/dict/codec.cpp:118-130 | the bytes written are those of an array of four-element arrays |
| RecordEncoder.EncodeJmdict | src/dict/codec.cpp:394-415 | the nineteen fields are appended in order |
| RecordEncoder.EncodeRecord | src/dict/codec.cpp:667-701 | the payload is the bytes of one indefinite-length array of version, kind and fields, and is not empty |
| RecordDecoder.Decoder.EnterArray | src/dict/codec.cpp:163-173 | an array of either length form is entered, anything else sets the error flag |
| RecordDecoder.Decoder.LeaveArray | src/dict/codec.cpp:177-184 | whatever is left of the container is skipped, of any well-formed shape and depth |
| RecordDecoder.Decoder.Number | src/dict/codec.cpp:186-197 | an integer is read as itself, anything else sets the error flag |
| RecordDecoder.Decoder.Real | src/dict/codec.cpp:199-215 | a 64-bit float is read as its bits and an integer as its conversion |
| RecordDecoder.Decoder.Boolean | src/dict/codec.cpp:217-228 | true and false are read, anything else sets the error flag |
| RecordDecoder.Decoder.String | src/dict/codec.cpp:230-242 | a text string is read whole |
| RecordDecoder.Decoder.Skip | src/dict/codec.cpp:367-386 | skipping one item of any kind keeps the place in the container around it |
| RecordDecoder.Decoder.StringList | src/dict/codec.cpp:244-253 | the list is read exactly when every element is a string |
| RecordDecoder.Decoder.StringListList | src/dict/codec.cpp:266-275 | the list is read exactly when every element is a string list |
| RecordDecoder.Decoder.ReadSenseTags | src/dict/codec.cpp:277-286 | the two lists are read and further items ignored |
| RecordDecoder.Decoder.OptionalImage | src/dict/codec.cpp:302-311 | null is no image, an image array an image |
| RecordDecoder.Decoder.ImageList | src/dict/codec.cpp:313-322 | the list is read exactly when every element is an image |
| RecordDecoder.Decoder.LoanwordSources | src/dict/codec.cpp:324-342 | the list is read exactly when every element is a loanword source |
| RecordDecoder.Decoder.Examples | src/dict/codec.cpp:344-361 | the list is read exactly when every element is an example |
| RecordDecoder.DecodeJmdict | src/dict/codec.cpp:417-440 | the nineteen fields are read in order, or the error flag is set |
| RecordDecoder.ReadHeader | src/dict/codec.cpp:648-663 | the header is accepted exactly for an array that begins with a version and a kind this build reads |
| RecordDecoder.DecodeRecord | src/dict/codec.cpp:703-760 | on the bytes of any well-formed item: the record the item holds, with id 0, or nothing when it holds none; on bytes cut short never another record, and nothing when the item has no extra items |
| RecordFields.PayloadRoundTrip | src/dict/codec.cpp:394-638 | for all eleven kinds a payload item holds its record, whatever items follow the fields |
| RecordFields.ExtraItemsIgnored | src/dict/codec.cpp:277-361 | further items behind those a fixed-shape nested array needs do not change what is read |
| RecordFields.ListRoundTrip | src/dict/codec.cpp:244-275 | a list comes back when each of its elements does |
| Codec.RoundTrip | src/dict/codec.h:28-35 | decoding the encoding of any record gives the record back with id 0 |
| Codec.ReadExtended | src/dict/codec.cpp:177-184 | well-formed items added at the end of the record do not change the result |
| Codec.ReadTruncated | src/dict/codec.h:32-35 | a payload cut short at any length reads as nothing |
| Codec.PayloadKind | src/dict/codec.cpp:762-769 | the kind of a whole payload exactly when this build reads its header |
| Codec.PayloadsAreFaithful | src/dict/store.cpp:483-514 | records with equal payloads are equal, which payload de-duplication relies on, and no payload begins another |
| Codec.HeaderReadExactly | src/dict/codec.cpp:657-661 | exactly which versions and kinds are read, among them versions that differ by 2^32 |
| WireExamples.FrequencyPayload | src/dict/codec.cpp:598-602 | the bytes of the payload of a frequency record |
| WireExamples.Integers | src/dict/codec.cpp:22-36 | the bytes of integers behind a one-byte argument, on the examples of RFC 8949 |
| WireExamples.Arrays | src/dict/codec.cpp:22-36 | the bytes of arrays of either length form, on the examples of RFC 8949 |
| RecordCodec.ReadRow | src/dict/store.cpp:321-345 | the decoder computes, for every whole payload, the function the store is proved over |
| RecordCodec.StoreCodecHolds | src/dict/store.cpp:483-514 | the record codec gives every record back and writes no empty payload, which is what the store asks of it |
| Ranking.UndecoratedIsStages | src/lookup/ranking.cpp:150-192 | criteria 1 to 7 compare seven keys in order |
| Ranking.ResultsAreStages | src/lookup/ranking.cpp:194-253 | without the secondary frequencies the full comparator compares fourteen keys in order |
| Ranking.CompareTextLaws | src/lookup/ranking.cpp:194-253 | code-unit order is total, antisymmetric and transitive |
| RankingOrder.UndecoratedWeakOrder | src/lookup/ranking.cpp:260-263 | the undecorated comparison is a strict weak order on every list |
| RankingOrder.FullWeakOrder | src/lookup/ranking.cpp:255-258 | the full comparison is one on lists where the secondary frequencies are not walked |
| RankingOrder.SecondaryFrequenciesCycle | src/lookup/ranking.cpp:53-67 | three results that the comparator orders in a cycle under two frequency dictionaries |
| RankingOrder.SortIsDefinedExactly | src/lookup/ranking.cpp:194-253 | the sort is always called with a strict weak order if and only if at most one dictionary can give a result a frequency |
| RankingCriteria.StageDecides | src/lookup/ranking.cpp:150-253 | the first criterion that tells two results apart decides |
| RankingCriteria.LongestMatchFirst | src/lookup/ranking.cpp:152-155 | the longer match comes first, whatever else differs |
| RankingCriteria.ExactHeadwordFirst | src/lookup/ranking.cpp:157-161 | then the headword that is the matched text |
| RankingCriteria.ReadingFirst | src/lookup/ranking.cpp:163-167 | then the entry that lists the matched text among its readings |
| RankingCriteria.FewestStepsFirst | src/lookup/ranking.cpp:169-171 | then fewer deconjugation steps |
| RankingCriteria.DictionaryOrderFirst | src/lookup/ranking.cpp:173-178 | then the dictionary higher in the user's list |
| RankingCriteria.RegularSpellingFirst | src/lookup/ranking.cpp:180-184 | then the matched headword without an irregular, outdated or rare spelling |
| RankingCriteria.UsualReadingFirst | src/lookup/ranking.cpp:186-190 | then the reading without irregular marks, and of those one usually written in kana |
| RankingCriteria.LowerRankFirst | src/lookup/ranking.cpp:43-48 | then the lower rank of a rank list |
| RankingCriteria.HigherCountFirst | src/lookup/ranking.cpp:43-48 | or the higher count of an occurrence-count dictionary |
| RankingCriteria.CoveredFirst | src/lookup/ranking.cpp:204-209 | a word a frequency dictionary covers comes before one that none covers |
| RankingCriteria.PriorityRankFirst | src/lookup/ranking.cpp:204-209 | without frequency dictionaries the lower priority rank comes first |
| RankingCriteria.SecondaryRankFirst | src/lookup/ranking.cpp:53-67 | when neither the first dictionary nor the readings decide, the first lower-priority one that answers for both with different ranks does |
| RankingCriteria.PopularFirst | src/lookup/ranking.cpp:219-223 | then the more popular entry |
| RankingCriteria.EarlierReadingFirst | src/lookup/ranking.cpp:225-229 | then the entry that lists the matched reading earlier |
| RankingCriteria.LowerIdFirst | src/lookup/ranking.cpp:231-237 | then the lower entry id, one without an id last |
| RankingCriteria.SpellingOrderFirst | src/lookup/ranking.cpp:239-243 | then the headword first in code-unit order |
| RankingCriteria.DefinitionsFirst | src/lookup/ranking.cpp:245-252 | then the longer definitions, and of equally long ones those first in code-unit order |
| StableSorting.SortIsStable | src/lookup/engine.cpp:269-287 | the sort yields a sorted permutation with ties in their old order |
| StableSorting.StableSortUnique | src/lookup/engine.cpp:269-287 | under a strict weak order a list has one stable sort, so the algorithm does not matter |
| PreCut.HeadwordKeyExact | src/lookup/decorate.cpp:41-49 | the memo key tells headwords apart, except no reading from one empty reading |
| PreCut.SeparatorFreeIsFaithful | src/lookup/decorate.cpp:41-49 | without separators in headwords, results with one key get the same hits |
| PreCut.CollectHits | src/lookup/decorate.cpp:25-37 | the hits of the dictionaries that answer, in the user's order |
| PreCut.DecorateList | src/lookup/engine.cpp:280-285 | every result gets the hits of the first result with its memo key, a kanji result those of its own record and the kanji dictionaries |
| PreCut.MemoChangesNothing | src/lookup/decorate.cpp:41-49 | the memoised decoration is the plain one if and only if results with one key get the same hits |
| PreCut.DecoratedBySources | src/lookup/decorate.cpp:25-78 | the hits of a result name its frequency sources in order, for a kanji result its own record's dictionary first |
| PreCut.MayOrder | src/lookup/engine.cpp:267-305 | results without frequencies, with separator-free headwords and at most one frequency source each, meet what the ordering asks for |
| PreCut.UndecoratedCut | src/lookup/engine.cpp:268-274 | the survivors are a prefix of the undecorated order that ends at the list's end or at a strict step |
| PreCut.PreCutEquivalence | tools/lookupprobe.cpp:898-953 | cutting on the undecorated order first gives exactly the list that decorating, sorting and cutting everything gives |
| PreCut.PitchCommutes | src/lookup/engine.cpp:299-305 | pitch positions attached after the cut are those attached before the sort |
| PreCut.OrderResults | src/lookup/engine.cpp:267-305 | the whole pipeline answers the reference order of decorate, stable sort, cut; AnswerIsInOrder and the lemmas on the criteria say what that order is |
| PreCut.AnswerIsInOrder | src/lookup/engine.cpp:267-305 | the answer is the first results, or all, of the decorated list in ascending order, with their pitch positions |
| PreCut.HitsAreAnswers | src/lookup/decorate.cpp:25-37 | each hit is what one dictionary answers, under its name and the way it ranks, and each dictionary that answers has one |
| PreCut.DecoratedCoveredFirst | src/lookup/decorate.cpp:25-78 | of two decorated results alike before, one the only frequency dictionary covers comes before one it does not |
| PreCut.KanjiRankFirst | src/lookup/decorate.cpp:51-78 | of two kanji results alike before, the one of the lower frequency rank of its record |
| PreCut.AttachPitch | src/lookup/decorate.cpp:83-97 | the loop over the pitch dictionaries attaches what PitchOf says |
| PreCut.PitchOfFirst | src/lookup/decorate.cpp:83-97 | the attached positions are those of the first dictionary that knows a position of some reading |
| ScanRegion.InitialRectIsInside | src/capture/scanregion.cpp:76-84 | the first region has the wanted size cut to the workspace, lies in it and holds the cursor's nearest point |
| ScanRegion.InitialRectIsAround | src/capture/scanregion.cpp:76-84 | its centre is the cursor, unless an edge of the workspace is nearer than half of it, where it then ends |
| ScanRegion.GrownSpanIsAround | src/capture/scanregion.cpp:98-105 | a grown axis has its predecessor's centre as far as the edges allow, moved just far enough to hold the cursor |
| ScanRegion.GrownIsInside | src/capture/scanregion.cpp:86-106 | every grown region lies in the workspace and holds the cursor's nearest point |
| ScanRegion.GrownKeepsCurrent | src/capture/scanregion.cpp:98-105 | a region in the workspace, within the limits and around the cursor stays inside the grown one exactly when no axis slips |
| ScanRegion.NothingSlipsFromOrigin | src/capture/scanregion.cpp:98-105 | with non-negative coordinates it always does |
| ScanRegion.LadderSizes | src/capture/scanregion.cpp:98-98 | after k steps each side is the first one doubled k times, cut to its limit |
| ScanRegion.LadderEndsExactly | src/capture/scanregion.cpp:91-93 | the ladder ends exactly when doubling reaches both limits |
| ScanRegion.TileIsInside | src/capture/scanregion.cpp:108-129 | a tile lies in the output and has the requested size cut to it |
| ScanRegion.TileKeepsCentre | src/capture/scanregion.h:42-51 | the centre of a request inside the output is half a stride clear of the tile's edges, rounded up on the left and one less on the right |
| ScanRegion.QuarterClearExactly | src/capture/scanregion.h:45-48 | the documented quarter of a tile holds for every request of a length exactly when the length modulo 4 is not 1 |
| ScanRegion.TileOfTile | src/capture/scanregion.cpp:108-129 | the tile of a tile is the tile, except exactly for requests of two pixels right of the origin and off the output's edge |
| ScanRegion.TileOriginsExact | src/capture/scanregion.cpp:108-129 | the origins of tiles of one size are exactly the lattice points inside the output and the last position |
| ScanRegion.OriginCount | src/capture/scanregion.h:42-51 | how many origins there are |
| ScanRegion.TileCountBounds | src/capture/scanregion.h:42-51 | the documented tile count holds for even sizes, for odd ones exactly under a condition on strides and overshoot, and never on outputs longer than their square; the bound with two more always holds |
| CaptureRequests.FrameSource.BeginRequest | src/capture/framesource.cpp:66-78 | a request is issued when none is in flight and otherwise replaces the remembered one |
| CaptureRequests.FrameSource.EndRequest | src/capture/framesource.cpp:80-91 | the remembered request, which is the newest one, is in flight next |
| CaptureRequests.FakeFrameSource.Grab | src/capture/framesource.cpp:151-157 | every request is recorded, and a reply is queued when none was in flight |
| CaptureRequests.FakeFrameSource.Deliver | src/capture/framesource.cpp:159-194 | one reply per issued rectangle, and the newest request of the handlers is issued next |
| CaptureRequests.WlrFrameSource.Grab | src/capture/wlrframesource.cpp:187-191 | a grab during another only remembers its rectangle |
| CaptureRequests.ChainDepth | src/capture/wlrframesource.cpp:194-196 | when the chain of refusals is one deep, as documented, and when it is one deeper for every handler |
| CaptureRequests.ClippedShowsBoth | src/capture/wlrframesource.cpp:217-222 | the clipped rectangle holds exactly the pixels of the grab and the screen, and is empty exactly when there is none |
| CaptureRequests.WlrFrameSource.Issue | src/capture/wlrframesource.cpp:198-244 | with a manager, a screen and a common pixel: a new pending frame that shows exactly the pixels of both, with a running watchdog; otherwise a refusal and the remembered grab; without a manager the chain of refusals has exactly the length its handlers and the remembered grab give it, with one at most that |
| CaptureRequests.WlrFrameSource.OnBuffer | src/capture/wlrframesource.cpp:253-276 | the first offer in a usable format is taken and later ones are ignored; before version 3 its copy is requested or the frame refused at once |
| CaptureRequests.WlrFrameSource.SendCopy | src/capture/wlrframesource.cpp:283-302 | a copy is requested once per frame, or the frame is refused when there is no usable offer or no buffer |
| CaptureRequests.WlrFrameSource.FinishPending | src/capture/wlrframesource.cpp:325-362 | the grab is answered with the pixels its frame shows, the watchdog stops and the remembered grab is issued |
| CaptureRequests.WlrFrameSource.AbortPending | src/capture/wlrframesource.cpp:364-374 | the frame is refused, the watchdog stops and the remembered grab is issued |
| CaptureRequests.WlrFrameSource.OnRequestTimeout | src/capture/wlrframesource.cpp:386-402 | a frame that is never answered is refused by the watchdog |
| CaptureRequests.WlrFrameSource.Run | src/capture/wlrframesource.cpp:187-402 | in every run: one frame at a time, timed exactly while it is pending; issued rectangles are requested ones in order with one outcome each; an idle source has issued the newest; no frame is copied twice, and the buffer is the first usable one offered |
| OcrCorrections.ApplyRule | tools/meiki_reference.py:41-73 | the loop over one line computes the pass of the specification or fails with it |
| OcrCorrections.ApplyChars | tools/meiki_reference.py:37-74 | all rules are applied in order, each over what the one before it left, skipping those of the other direction |
| OcrMeaning.AppliesExactly | tools/meiki_reference.py:48-57 | a rule applies exactly where its text stands, the places around it are of the wanted kinds, and no character is more certain than allowed |
| OcrMeaning.ClassesExactly | tools/meiki_reference.py:12-25 | which characters each class holds |
| OcrMeaning.PassRewrites | tools/meiki_reference.py:41-73 | a pass replaces the text at exactly the places where the rule applies, from the left and without overlap, with the least confidence of each, and leaves everything else as it is |
| OcrMeaning.PlacesUnique | tools/meiki_reference.py:41-73 | those places are determined by the line |
| OcrMeaning.OneMoreRule | tools/meiki_reference.py:37-47 | a rule of the other direction leaves the line alone, any other is a pass over what the rules before it left |
| OcrCorrections.ReplacementTiles | tools/meiki_reference.py:60-71 | a replacement of another length tiles the hull of its span exactly; one of the same length keeps each box |
| OcrCorrections.PartsAreEven | tools/meiki_reference.py:60-71 | the parts of a replacement differ in length by at most one |
| OcrCorrections.PassKeepsOrder | tools/meiki_reference.py:41-73 | one pass keeps boxes in order along the reading axis and within the line |
| OcrCorrections.CorrectedKeepsOrder | tools/meiki_reference.py:37-74 | boxes in order along the reading axis stay so through all rules |
| OcrCorrections.CorrectedConfidences | tools/meiki_reference.py:59-71 | every confidence in the result is one of the input's |
| OcrCorrections.PassFailsExactly | tools/meiki_reference.py:48-59 | a pass fails exactly when an empty find matches in front of some character |
| OcrCorrections.CorrectedNeverFails | tools/meiki_reference.py:37-74 | rules with a non-empty find are always applied |

## Left out

- DeconjSearch.Deconjugate: asks for a search that ends, because the original loops forever otherwise.
- PreCut.OrderResults: asks for a faithful memo and for a list on which the full order is a strict weak order,
  which is what the standard library's stable sort asks for too. MayOrder discharges both.
- StableSorting.SortIsStable: sorting is modelled as an insertion sort; StableSortUnique makes any other
  stable algorithm the same.
- DictionaryManager.DictionaryManager.Remove: its deletions, and those of RetryRemovals, fail only for open
  files. What a removal leaves that fails for another reason is StoreFiles.FailedRemoval; the manager drops
  such a removal.
- StoreFiles.StoreDirectory.FinishStore: the renames of a finishing import are one step; no claim is made about
  stopping between them, and the files they supersede can always be deleted.
- StoreIndex.Store.Find: payload digests are taken to be injective. That decoding undoes encoding is what
  RecordCodec.StoreCodecHolds proves of the record codec.
- Codec.RoundTrip: asks that no string or list has 2^64 elements or more, which the source's containers
  cannot hold.
- CaptureRequests.WlrFrameSource.Run: the compositor's events come for a live frame object only, as libwayland
  delivers them.
- DictionaryManager.DictionaryManager.Run: one step at a time; reading the published snapshot under its mutex
  is one step, and finishing an import beside openStore() is not interleaved more finely.
- JSON and rule file parsing, error messages and logging of the deconjugator.
- SQLite, xxHash, memory mapping, QSaveFile and Wayland: a table, arbitrary or injective functions, byte
  sequences, one-step writes and events.
- UTF-8 conversion and the arithmetic of doubles: strings are their UTF-8 bytes, doubles their 64 bits, and
  the conversion of an integer to a double is a parameter. The quotient rounded by the tile grid is exact.
- StoreWriter::begin() on a writer that was used before, batch commits and StoreWriter::abort().
- Integer overflow of scores and coordinates, and scores that are not a number.
- Rectangles of negative size, which QRect::intersected() turns round first.
- The images, scales and hashes of captured frames, the black-rectangle probe, and the KWin, portal and
  Windows sources.
- Word-class tables, downloads and update checks of the dictionary manager, what its options mean to an
  import, and saving its list.
- Importers, query building, the kanji card, the scan controller and all user interface.
