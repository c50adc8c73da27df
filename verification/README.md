# Verified kernels of the Agent Workspace Hub

This project models the stateful kernels behind the Agent Workspace Hub and proves what they keep:

- the **context engine**: items with token counts, a protected set, a published window, durable
  offload records and snapshots; the optimisation pass; the assembly of a request's context; and
  the token counter, compressor, scorer, policy and selector it is made of;
- the **file-system lock protocol** between processes, and the coordinator that acquires a set;
- the **collaboration store**: compare-and-swap ownership of tasks and worktrees;
- the **circuit breaker** in front of providers;
- the **memory store** and its migration from the legacy file;
- the **deny-rule store** with its path matching, and both path normalisers;
- the **checkpoint pipeline** script.

`dafny verify dfyconfig.toml` checks everything.

## How the model is laid out

Objects whose methods update fields are classes with those fields; every method is proved to make of
the old state what a specification function says, and the theorems are about those functions, over
every run where runs matter. The engine's specification is `EngineModel`; `EnginePass` is about the
optimisation pass, `EngineRuns` about whole runs, `EngineRecovery` about getting content back,
`EngineContext` about assembling a request, `EngineDecisions` about which items a pass keeps,
`EngineEffects` about when each operation succeeds and what it does, `EngineWitnesses` holds runs that
show which conditions are needed, and `Engine` the classes. `FsLocks` is the lock protocol as a state
machine over all processes and `FsCoordinator` the code of one.

The outcome of every file operation is a parameter, so each statement says which of them it takes to
succeed; one that does not mention an outcome holds whichever operations fail. Time is a parameter too.

Scores are reals. Text is a sequence of Unicode characters with its length in bytes given by UTF-8.

## Where the code and its documentation differ

The model follows the code.

- `replace_item` swallows a failed window write and its callers report success
  (src/context/engine.rs:803-805). `OptimizeIsExact` says by how much the reported total is then off.
- `protect` and `remove_item` do not remember what a failed write makes them undo
  (src/context/engine.rs:331-333, src/context/engine.rs:368-374). `InSyncIff` shows that these are the
  only two ways in which the protected set in memory and on disk can come apart.
- Two operations leave an offloaded item without its record: inserting an item that already says it is
  offloaded, and a restore whose window write fails while the record is removed all the same.
  `CoveredIff` shows that there are no others.
  `EngineWitnesses` has runs from an empty project for each of these four.
- A record left behind can bring an older version of an item back (`RestoreCanBringBackAnOldVersion`).
- `compress_item` replaces content for good; "lossless" in the comment is not a property.
- `restore_snapshot` works on a disabled engine, counts from zero and checks the budget against the
  snapshot alone (`SnapshotRestoreFitsIff` says exactly when the result fits, and
  `SnapshotRestoreOverflows` is a run in which it does not).
- Removing duplicate lines twice can change a text again: a line that ends in two carriage returns loses
  one each time (`DedupIdempotentIff`, `DedupIsNotAlwaysIdempotent`).
- The set of lock guards drops in acquisition order, not in reverse, and a full registry is reported as
  an infrastructure failure; the variant made for it is never produced.
- Reclaiming a stale lock checks and removes in two steps; `ReclaimRaceBreaksExclusion` is a run in
  which two processes come to hold one lock although no live process outstays the stale age.
- `assign` takes over a released record only; a handed-off one counts as held. A first assignment does
  not look at the revision it is given, so two operations submitted with one revision can both win
  exactly when that revision is one or more (`TwoWinnersIff`).
- The lift of legacy checkpoint documents is injective within a version and not across versions
  (`LiftIsOneIff` says which documents share a lift).

## Model

| member | source | states |
|---|---|---|
| EngineRuns.ApplyKeepsInv | src/context/engine.rs:264-383 | every operation, whichever of its file operations fail, keeps ids unique and valid, token counts equal to the counter's value, records and snapshots well formed, and the items in memory equal to the published ones |
| EngineRuns.RunsKeepInv | src/context/engine.rs:246-256 | so does every run |
| EngineRuns.ReachableStatesRestart | src/context/engine.rs:211-230 | after any run from an empty project the published window loads and brings the same items back |
| EngineRuns.RestartReproduces | src/context/window.rs:57-90 | a published window is accepted, and a restart reproduces the whole state when the protected sets agree |
| EngineRuns.InSyncIff | src/context/engine.rs:317-383 | a step keeps the protected set in memory equal to the published one exactly when it is not one of the two rollbacks that forget the value before |
| EngineRuns.RunsRestartWhole | src/context/engine.rs:251-257 | after a run without those two a restart reproduces the whole state |
| EngineRuns.CoveredIff | src/context/engine.rs:655-727 | a step keeps a record of the same content for every offloaded item exactly when it is neither an insert, within all bounds, of an item that says it is offloaded without such a record, nor a restore that fits or is protected whose window write fails while its record goes |
| EngineWitnesses.InsertCanUncover | src/context/engine.rs:264-296 | for every enabled configuration, a run from an empty project in which such an insert leaves an offloaded item without a record |
| EngineWitnesses.RestoreCanUncover | src/context/engine.rs:704-714 | and one in which such a restore does |
| EngineWitnesses.ProtectCanLapse | src/context/engine.rs:326-334 | for every enabled configuration, a run in which protecting an item again leaves memory and disk apart |
| EngineWitnesses.RemoveCanLapse | src/context/engine.rs:366-374 | and one in which a failed removal does |
| EngineRuns.RunsStayCovered | src/context/engine.rs:655-690 | offload never means delete: over every run without those two, every offloaded item has its record |
| EnginePass.OptimizeIsExact | src/context/engine.rs:568-649 | the four lists of the summary partition the item ids; ids and protected set stay; the reported total is the active total less what failed window writes left unnoticed, and equal to it when all succeed, even if record writes fail |
| EnginePass.SubtractionsNeverSaturate | src/context/engine.rs:591-625 | no saturating subtraction of the pass saturates, with any failures before it |
| EnginePass.ItemFate | src/context/engine.rs:562-626 | what the pass makes of each item: kept and protected items are untouched, the others become what their list says or stay when the window write failed, an offloaded item has its record, only compressed ids change content |
| EnginePass.StandsAfter | src/context/engine.rs:581-626 | a decision settles its item and its place in the lists, and later decisions leave both alone |
| EnginePass.PassFacts | src/context/engine.rs:581-626 | the accounting and the partition after each prefix of the decisions |
| EnginePass.DecisionsAreReady | src/context/engine.rs:456-465 | the decisions cover each id once, describe the items as they are, and their costs sum to at most the active tokens |
| EnginePass.FreshItemsStay | src/context/engine.rs:741-741 | an item with recency 1 is never offloaded by the pass |
| EnginePass.OptimizeSettles | src/context/engine.rs:568-649 | when a pass compresses nothing and all writes succeed, a second pass on the same task keeps every item and changes nothing |
| EnginePass.KeptIsSettled | src/context/engine.rs:586-599 | an item a pass kept would be kept again at its end, a full offload store included |
| EnginePass.OptimizeShrinks | src/context/engine.rs:568-649 | a pass whose window writes succeed lowers the active tokens by at least one for every item it compresses and never raises them |
| EnginePass.PassesConverge | src/context/engine.rs:568-649 | repeated passes on one task come to rest: after at most one pass more than there were active tokens a pass changes nothing |
| EnginePass.OffloadEffect | src/context/engine.rs:660-690 | one offload: record first, then the item; it fails exactly when the record cannot be written and then changes nothing; the tokens released |
| EnginePass.CompressEffect | src/context/engine.rs:765-792 | one compression: it acts exactly when there are savings, never releases more than the item's tokens, and touches no other item |
| EnginePass.ArchiveEffect | src/context/engine.rs:748-761 | one archiving and the tokens it releases |
| EngineDecisions.GoodItemsAreKept | src/context/policy.rs:142-146 | an active, unprotected item of score 0.45 or more is kept as it is by the pass, whichever writes fail |
| EngineDecisions.CheapItemsAreArchived | src/context/policy.rs:161-169 | one of a score from 0.15 up to 0.45 and at most 512 tokens is archived |
| EngineDecisions.LongItemsAreCompressed | src/context/policy.rs:152-160 | one of such a score and more tokens is compressed exactly when that is switched on and saves tokens, and kept as it is otherwise |
| EngineDecisions.PoorItemsAreOffloaded | src/context/policy.rs:147-151 | one of a score below 0.15 is offloaded exactly when that is switched on, its record is written and the store has room; its record is then the item, and otherwise it is kept as it is |
| EngineDecisions.OthersAreKept | src/context/policy.rs:135-141 | protected and inactive items are kept as they are, whatever their score |
| EngineDecisions.DecidedAtRank | src/context/policy.rs:119-130 | the decision on an item comes after those on exactly the items of a better score, or of the same and a smaller id; so the writes it meets are those at its rank |
| EngineModel.ActiveTokensPut | src/context/engine.rs:794-806 | replacing an item exchanges exactly its active tokens for the new ones |
| EngineModel.PutIds | src/context/engine.rs:794-806 | replacing an item keeps the ids |
| EngineModel.FindPut | src/context/engine.rs:306-314 | after replacing, its id finds the new item and every other id what it found before |
| EngineRecovery.RestoreIsGuarded | src/context/engine.rs:697-745 | a restored item is active, fresh and counted and its record is gone; restoring an unprotected item never takes the active tokens past the usable budget; an error that changed anything left the record in place |
| EngineRecovery.OffloadThenRestore | src/context/engine.rs:660-745 | offload then restore gives the original item and store back, fresh; it works exactly when the active tokens fit before |
| EngineRecovery.OffloadedContentSurvives | src/context/engine.rs:655-727 | after any run that does not touch the item, with restarts and failures, the record is as written and restoring gives the item that was offloaded, exactly when it fits or is protected |
| EngineRecovery.UntouchedStays | src/context/engine.rs:264-383 | an operation that neither names an inactive item nor restores a snapshot that has it leaves the item and its record alone |
| EngineRecovery.RestoredIsNotOffloadedAgain | src/context/engine.rs:729-745 | what was just restored is not offloaded by the next pass, whatever its task |
| EngineRecovery.RestoreContentIff | src/context/engine.rs:704-726 | a restore gives an item's own content exactly when it is offloaded or its record has that content |
| EngineRecovery.RestoreCanBringBackAnOldVersion | src/context/engine.rs:719-726 | offload, insert a new version, archive it, restore: the old version comes back, for every such pair of versions |
| EngineRecovery.SnapshotRestoreIsExact | src/context/engine.rs:854-878 | restored and skipped ids partition the snapshot's; restored items are as taken and fresh, others untouched; the active tokens are those of before less what the restored ids had plus what came back, which fits |
| EngineRecovery.SnapshotRoundTrip | src/context/engine.rs:813-878 | a snapshot taken while everything fits and restored in any later state skips nothing and brings every active item back |
| EngineRecovery.RestoringIsGreedy | src/context/engine.rs:858-872 | what a snapshot brings back, in tokens and ids, depends on the snapshot and the budget alone |
| EngineRecovery.SnapshotRestoreFitsIff | src/context/engine.rs:860-868 | restoring any snapshot in any state ends within the budget exactly when what is active, less what the restored ids had, and what comes back fit together |
| EngineRecovery.SnapshotRestoreMayOverflow | src/context/engine.rs:860-868 | so a snapshot that fits and whose items are gone overflows exactly when it does not fit on top of what is active |
| EngineWitnesses.SnapshotRestoreOverflows | src/context/engine.rs:850-878 | a run from an empty project, for any two items that fit one by one and not together, in which a restore takes the active tokens past the budget |
| EngineWitnesses.ItemsFitApart | src/context/budget.rs:31-40 | there are such items |
| EngineContext.AssembledIsExact | src/context/engine.rs:517-560 | a request gets exactly the selected ids in order, with right token counts, costing the reported total less what compressing them saved; exactly the total when compression is off |
| EngineContext.AssembledFits | src/context/engine.rs:493-508 | the reported total is within the configured and the requested budget, or is what protected active items cost |
| EngineContext.SelectedItemsFacts | src/context/engine.rs:481-509 | the selected items are active items of the engine and sum to the selection's total |
| EngineContext.RequestPrefersBetterScores | src/context/engine.rs:481-560 | a request passes an active item over for an unprotected one of a worse score, or of the same and a larger id, only when that one has fewer tokens |
| EngineContext.RequestIsFilled | src/context/engine.rs:493-508 | an active item that is rejected does not fit into what is left of the usable or the requested tokens |
| EngineContext.RequestCoversActive | src/context/engine.rs:517-560 | every active item is either given or rejected, and every protected one is given |
| EngineContext.AssemblyShares | src/context/engine.rs:519-531 | each item is compressed to its equal share of the requested tokens, within 32 and 4096, with every stage on |
| EngineEffects.InsertIff | src/context/engine.rs:264-296 | inserting succeeds exactly for a valid id, content within the limit, room for a new id and a written window; it then changes what is found under this id and nothing else, and otherwise nothing |
| EngineEffects.ProtectIff | src/context/engine.rs:317-336 | protecting says whether there is such an item, adds its id and keeps the other protections; with a failed write the id is not protected |
| EngineEffects.UnprotectIff | src/context/engine.rs:339-349 | unprotecting says whether the id was protected and takes out this id only, when the window is written |
| EngineEffects.RemoveIff | src/context/engine.rs:360-383 | removing succeeds exactly when there is such an item and the window is written; other ids keep item, protection and record |
| EngineEffects.OffloadIff | src/context/engine.rs:660-690 | offloading succeeds exactly for an active, unprotected item whose record is written and has room; it leaves its record and changes no other id |
| EngineEffects.RestoreIff | src/context/engine.rs:697-745 | restoring succeeds exactly when there is something to restore, which fits or is protected, and its record, if any, can be removed; what is found afterwards |
| EngineEffects.ArchiveIff | src/context/engine.rs:748-761 | archiving succeeds exactly for an unprotected item and changes no other id |
| EngineEffects.CompressIff | src/context/engine.rs:765-792 | compressing answers its savings exactly for an active item that gets cheaper, and changes nothing otherwise |
| EngineEffects.SnapshotIff | src/context/engine.rs:813-838 | taking a snapshot succeeds exactly for a valid name of up to 128 bytes with room and a written file; it holds every active item once and other snapshots stay |
| EngineEffects.UsableIs | src/context/budget.rs:31-35 | the usable tokens and the two reserves make up the limit, and there are none when the reserves exceed it |
| ContextItems.ValidIdsAreFileNames | src/context/item.rs:128-136 | a valid id names a file in its directory and nothing else, and every plain ASCII name of up to 256 characters is valid |
| Engine.ContextEngine.Start | src/context/engine.rs:211-230 | an engine starts exactly when the published window loads, with its items and protected set |
| Engine.ContextEngine.ReplaceItem | src/context/engine.rs:794-806 | publishes first and commits only what was published |
| Engine.ContextEngine.Insert | src/context/engine.rs:264-296 | recounts, checks in the order of the code, publishes and commits; keeps the invariant |
| Engine.ContextEngine.Protect | src/context/engine.rs:317-336 | with its rollback as written |
| Engine.ContextEngine.Unprotect | src/context/engine.rs:339-349 | with its rollback as written |
| Engine.ContextEngine.RemoveItem | src/context/engine.rs:360-383 | with its rollback as written, and retires the record |
| Engine.ContextEngine.Offload | src/context/engine.rs:660-690 | the new state and every error of offloading |
| Engine.ContextEngine.RestoreItemToActive | src/context/engine.rs:729-745 | the budget check and the fresh active item |
| Engine.ContextEngine.Restore | src/context/engine.rs:697-727 | memory first, then the store; every error |
| Engine.ContextEngine.Archive | src/context/engine.rs:748-761 | the new state and every error of archiving |
| Engine.ContextEngine.CompressItem | src/context/engine.rs:765-792 | replaces content, count and note when there are savings |
| Engine.ContextEngine.Optimize | src/context/engine.rs:568-649 | the loop over the decisions makes the state and the summary that `EnginePass` and `EngineDecisions` are about |
| Engine.ContextEngine.Act | src/context/engine.rs:582-625 | one turn of that loop |
| Engine.ContextEngine.Snapshot | src/context/engine.rs:813-838 | stores the active items |
| Engine.ContextEngine.RestoreSnapshot | src/context/engine.rs:854-878 | the loop over the snapshot makes the state and the lists that `EngineRecovery` is about |
| Engine.ContextEngine.Select | src/context/engine.rs:481-509 | selection for a request, nothing changed |
| Engine.ContextEngine.GetContext | src/context/engine.rs:517-560 | the assembly that `EngineContext` is about, nothing changed |
| Engine.ContextEngine.AssembleItems | src/context/engine.rs:526-552 | the loop over the kept ids |
| Engine.ContextEngine.Shorten | src/context/engine.rs:531-549 | an item is replaced by its compressed form exactly when that saves tokens |
| Engine.WindowStore.Load | src/context/window.rs:57-90 | loads exactly the windows whose ids are all valid |
| Engine.WindowStore.Save | src/context/window.rs:94-114 | publishes all or nothing |
| Engine.OffloadStore.Put | src/context/offload.rs:57-76 | accepts exactly valid offloaded items within the bound, and stores them under their id |
| Engine.OffloadStore.Get | src/context/offload.rs:79-93 | the record of an id, none, or a read error |
| Engine.OffloadStore.RemoveRestored | src/context/offload.rs:116-127 | removes one record and says whether there was one |
| Engine.SnapshotStore.Put | src/context/snapshot.rs:66-91 | the checks of a snapshot in the order of the code; a stored snapshot is the one found under its id afterwards, and on an error or under any other id what is found is as before |
| ContextPolicy.DecisionsCoverItems | src/context/policy.rs:111-181 | the ranking is a sorted arrangement of the items, and the decisions do not depend on their order |
| ContextPolicy.FreshItemsAreNotOffloaded | src/context/policy.rs:89-181 | an item with recency 1 scores at least the offload threshold under the default weights |
| ContextPolicy.FreshItemsMayBeArchived | src/context/policy.rs:150-175 | but it can be archived |
| Scoring.RawScoreIsAScore | src/context/scoring.rs:74-98 | with normalised weights the sum lies in [0,1] without the final clamp and is at least the recency share |
| Scoring.AlignmentIsAShare | src/context/scoring.rs:49-68 | task alignment lies in [0,1] |
| Scoring.ScoreIs | src/context/scoring.rs:28-98 | the default score is 35 parts relevance, 25 priority, 15 recency, 15 alignment and 10 for what the item leaves of the usable tokens |
| Scoring.ScoreClamps | src/context/scoring.rs:41-47 | components outside the unit interval count as its nearer end |
| Scoring.SingleComponents | src/context/scoring.rs:74-98 | what an item scores that has one component and nothing else |
| Scoring.AlignmentCountsWords | src/context/scoring.rs:49-72 | each word the task and the content share counts the same |
| Scoring.AlignmentExtremes | src/context/scoring.rs:49-72 | alignment is full exactly when the content has every word of the task, and none exactly when they share no word |
| Scoring.WordSetIs | src/context/scoring.rs:49-72 | the words compared are the lowercase forms of the words of three bytes or more |
| Scoring.CostIs | src/context/scoring.rs:83-88 | the cost is the share of the usable tokens, and full when there are none or the item exceeds them |
| Selector.SelectWithinBudget | src/context/selector.rs:33-90 | the two loops and sorts compute the selection |
| Selector.KeepProtected | src/context/selector.rs:41-51 | protected items are kept in order, whatever they cost |
| Selector.PackCandidates | src/context/selector.rs:67-74 | the greedy loop |
| Selector.SelectionPartitions | src/context/selector.rs:33-90 | kept and rejected ids partition the ids |
| Selector.SelectionFits | src/context/selector.rs:33-90 | kept tokens are at most the larger of the usable budget and the protected tokens |
| Selector.KeptIffItFits | src/context/selector.rs:67-74 | a candidate is kept exactly when it fits on top of the higher-ranked kept ones |
| Selector.RejectedCannotBeAdded | src/context/selector.rs:67-74 | no rejected candidate could be added at the end |
| Selector.OutcomeIsGreedy | src/context/selector.rs:33-90 | with unique ids every protected id is among the kept ids, and any other id is among the kept or the rejected ids as its item fits or does not fit on top of those ranked before it |
| Selector.RejectedAscend | src/context/selector.rs:76-82 | rejected ids come out in ascending order of their scores |
| Selector.BetterScoresFirst | src/context/selector.rs:53-74 | a rejected item has more tokens than every unprotected kept one of a worse score, or of the same and a larger id |
| Selector.KeptInScoreOrder | src/context/selector.rs:40-74 | kept ids are the protected ones in the order of the items and then the others by descending score, ties by ascending id |
| Selector.SelectionIgnoresOrder | src/context/selector.rs:53-83 | with unique ids the outcome does not depend on the order of the items, apart from the order in which protected ids are listed |
| Tokens.CountTokens | src/context/tokens.rs:34-72 | the one-pass loop computes the sum over maximal runs |
| Tokens.CountConcat | src/context/tokens.rs:34-72 | the exact count of a concatenation: the sum less what the two meeting runs save as one |
| Tokens.CountNearlyAdditive | src/context/tokens.rs:34-72 | the count of a concatenation is the sum or one less, and the sum where the split touches white space |
| Tokens.CountAppend | src/context/tokens.rs:39-66 | what one more character does to the count and to the loop's pending state |
| Tokens.UniformCount | src/context/tokens.rs:35-73 | white space costs nothing, a word one token, symbols one each, and text in the three CJK blocks one for every four bytes, rounded up |
| Compressor.DedupContent | src/context/compressor.rs:123-138 | the loop keeps the first line of each key, and a final line feed |
| Compressor.DedupNeverRaisesTheCount | src/context/compressor.rs:123-138 | removing duplicates never raises the token count |
| Compressor.DedupKeepsEveryKeyOnce | src/context/compressor.rs:123-138 | no key appears twice afterwards, and the non-blank keys are exactly those of before |
| Compressor.DedupTwice | src/context/compressor.rs:123-138 | what a second removal still does to a text |
| Compressor.DedupIdempotentIff | src/context/compressor.rs:123-138 | a second removal changes nothing exactly when no line that is the first of its key ends in a carriage return and has more kept after it |
| Compressor.DedupIdempotentWithoutDoubleCr | src/context/compressor.rs:123-138 | in particular on every text without two carriage returns before a line feed |
| Compressor.DedupIsNotAlwaysIdempotent | src/context/compressor.rs:123-138 | a text on which it does change something |
| Compressor.StructuralExtractContent | src/context/compressor.rs:141-171 | the loop over fences, headings and lists |
| Compressor.StructuralNeverRaisesTheCount | src/context/compressor.rs:141-171 | extraction never raises the token count |
| Compressor.StructuralKeepsWhatCarries | src/context/compressor.rs:141-171 | a text of fewer than six lines stays as it is; of a longer one exactly the first line, headings, list items, quotations, fences and fenced lines are left, in order |
| Compressor.CarryingLinesSurvive | src/context/compressor.rs:141-171 | so each of these that is not empty can be read in the result |
| Compressor.OnlyCarryingLinesSurvive | src/context/compressor.rs:141-171 | and no other line can |
| Compressor.TruncateToTokens | src/context/compressor.rs:175-199 | the loop over the words computes the truncation |
| Compressor.TruncatedCount | src/context/compressor.rs:175-199 | what truncated text counts: its words and the marker |
| Compressor.TruncatedAlnumCount | src/context/compressor.rs:175-199 | for text of ASCII letters, digits and white space, at most max(max_tokens, 1) + 9, marker included |
| Compressor.TruncatedIs | src/context/compressor.rs:175-199 | truncated text is the first words, one fewer than the limit, one space apart, and the marker line with both numbers |
| Compressor.Compress | src/context/compressor.rs:68-108 | the stages in order, counts and savings, and as strategies exactly the stages that changed the text, in order |
| Compressor.NothingListedIff | src/context/compressor.rs:75-97 | each strategy is listed exactly when its stage is on and changed the text; with none listed the text is as it was |
| Compressor.CompressionBounds | src/context/compressor.rs:68-108 | what compressing leaves at most, by the options |
| Compressor.CountLines | src/context/compressor.rs:123-138 | a text costs what its lines cost |
| Compressor.CountWords | src/context/compressor.rs:175-199 | and what its words cost |
| FsLocks.ExclusionStepIff | src/core/fs_coordination.rs:361-453 | a step keeps every lock file with its one holder exactly when it is not the removal of a live lock found stale earlier |
| FsLocks.ExclusiveRunIff | src/core/fs_coordination.rs:361-453 | exclusion holds all through a run, crashes and reclaims included, exactly when no step of it is such a removal |
| FsLocks.HeldOnce | src/core/fs_coordination.rs:363-375 | then no lock is held by two processes |
| FsLocks.FilesAreTheUnion | src/core/fs_coordination.rs:206-225 | and with nobody crashed the lock files are the union of what the processes hold |
| FsLocks.TimelyRunsAreExclusive | src/core/fs_coordination.rs:78-81 | exclusion holds through every run in which no lock outlives the stale age |
| FsLocks.InitialIsExclusive | src/core/fs_coordination.rs:285-324 | in particular from an empty lock directory, for any number of processes, over every run that removes no live lock |
| FsLocks.AllOrNothing | src/core/fs_coordination.rs:285-324 | after any run of any number of processes that removes no live lock, crashes and reclaims included, a process that is idle has no lock file and one that holds has exactly those of the keys of its last request |
| FsLocks.AllOrNothingAlone | src/core/fs_coordination.rs:285-324 | when nobody else moves, an acquisition that ends idle leaves the whole lock directory as it was and one that ends holding has added exactly the requested keys |
| FsLocks.RunsPursueRequests | src/core/fs_coordination.rs:285-324 | whatever a process acquires, holds or releases along a run belongs to its last request |
| FsLocks.OwnStepsInRunsKeepLiveFiles | src/core/fs_coordination.rs:212-225 | along any such run the steps of a process touch no lock file of another live one |
| FsLocks.OwnStepsKeepOthersFiles | src/core/fs_coordination.rs:212-225 | a process that does not reclaim touches nothing but its own lock files |
| FsLocks.NoWaitCycle | src/core/fs_coordination.rs:297-323 | no state has a cycle of processes each waiting for a lock of the next |
| FsLocks.SomeoneCanGoOn | src/core/fs_coordination.rs:297-323 | in every exclusive state with a live process at work, some process can take a lock, give one back or go on reclaiming, or one waits for a lock that a crashed process left behind |
| FsLocks.AbandonedLocksAreReclaimed | src/core/fs_coordination.rs:437-453 | and such a lock can be reclaimed once enough time has passed, without touching a live one |
| FsLocks.SomeoneCanMove | src/core/fs_coordination.rs:297-323 | with nobody crashed or about to reclaim, some process can take a lock or give one back, without any timeout |
| FsLocks.SchedulesEnd | src/core/fs_coordination.rs:311-324 | every schedule of lock, release and timeout steps is bounded by the work at its start |
| FsLocks.ReclaimRaceBreaksExclusion | src/core/fs_coordination.rs:437-453 | a run in which two processes reclaim the lock of a crashed third and both end up holding it |
| FsCoordinator.Coordinator.RegistryEntry | src/core/fs_coordination.rs:416-429 | the bounded registry: known keys pass, new ones up to the bound |
| FsCoordinator.Coordinator.AcquireOne | src/core/fs_coordination.rs:328-412 | takes the lock file exactly when a chance comes before the deadline and before an unusable file, and otherwise takes nothing |
| FsCoordinator.Coordinator.Acquire | src/core/fs_coordination.rs:285-324 | success adds exactly the requested keys, ascending and once each; failure leaves the lock files as before; a path that has no key (`HasKeyIff` says which) is an invalid resource before any lock is taken; an uncontended request of paths that have one succeeds |
| FsCoordinator.Coordinator.AcquireAll | src/core/fs_coordination.rs:311-323 | the loop over the keys with its rollback |
| FsCoordinator.Coordinator.DropGuards | src/core/fs_coordination.rs:206-236 | dropping a set removes exactly its lock files |
| FsCoordinator.LockOrderAscends | src/core/fs_coordination.rs:301-302 | sorting and removing neighbours gives the same keys, strictly ascending |
| FsCoordinator.SameKeyIffSameComponents | src/core/fs_coordination.rs:150-172 | with an injective digest two paths share a key exactly when the components they keep agree |
| FsCoordinator.HasKeyIff | src/core/fs_coordination.rs:150-172 | a path has a key exactly when the root resolves, the path is not blank and it keeps a component; otherwise it is an invalid resource |
| FsCoordinator.SameKeyIffSameResource | src/core/fs_coordination.rs:150-172 | with an injective digest two paths under two roots share a key exactly when the roots and the components they keep agree |
| Paths.NormalizeRelative | src/core/fs_coordination.rs:131-143 | the loop joins the components that are neither empty nor a dot |
| Paths.NormalizeForwardSlash | src/core/policy.rs:210-225 | the character loop joins the non-empty components |
| Paths.NormalizedPathComponents | src/core/policy.rs:208-225 | normalising keeps the components, is idempotent, and two results are equal exactly when the components are |
| Paths.NormalizedKeyComponents | src/core/fs_coordination.rs:126-143 | the same for the other normaliser and the components it keeps |
| Paths.NormalisersAgreeIff | src/core/fs_coordination.rs:131-143 | the two agree on a path exactly when it has no backslash and no dot component |
| Paths.PrefixMatchIsComponentPrefix | src/core/policy.rs:195-206 | the string test holds exactly when the pattern's components are a non-empty prefix of the resource's |
| Paths.MatchCoversSubtree | src/core/policy.rs:195-206 | a match covers everything below |
| PolicyRules.PolicyStore.Add | src/core/policy.rs:96-107 | every error in order, and the appended rule; ids stay unique |
| PolicyRules.PolicyStore.Remove | src/core/policy.rs:111-122 | removes the rule of the id and says whether there was one |
| PolicyRules.PolicyStore.Matching | src/core/policy.rs:135-158 | the first rule that matches |
| PolicyRules.FirstMatchIsUnique | src/core/policy.rs:124-158 | which is unique |
| PolicyRules.AddingKeepsTheFirstMatch | src/core/policy.rs:96-158 | adding a rule never changes an existing first match; without one the new rule decides if it matches |
| PolicyRules.RemoveUndoesAdd | src/core/policy.rs:96-122 | removing a rule added under a fresh id gives the rules back |
| PolicyRules.DenialCoversSubtree | src/core/policy.rs:135-158 | a denied path is denied with everything below it |
| PolicyRules.DeniedIff | src/core/policy.rs:135-158 | a call is denied exactly when a rule of its tool covers it, by path components for the file tools and by the whole command for the terminal, and the answer is the first such rule |
| PolicyRules.StorableTools | src/core/policy.rs:174-189 | the tools a rule can be stored for |
| PolicyRules.SafeIdIff | src/core/policy.rs:163-170 | a rule id is safe exactly when it is a path of one component that is neither of the dot names |
| Collaboration.CollaborationStore.AssignOwner | src/core/collaboration.rs:285-338 | every error of `assign` in order and the record it stores |
| Collaboration.CollaborationStore.Mutate | src/core/collaboration.rs:340-380 | every error of `mutate` in order; a change that keeps the revision is not written |
| Collaboration.CollaborationStore.FindPosition | src/core/collaboration.rs:352-359 | the first record of a resource |
| Collaboration.CollaborationStore.Retain | src/core/collaboration.rs:333-335 | all records but those of one resource |
| Collaboration.StepKeepsInv | src/core/collaboration.rs:211-237 | every operation keeps one well-formed record per resource, within what `load` accepts, with a pending agent exactly in the requested state |
| Collaboration.RunsKeepInv | src/core/collaboration.rs:211-237 | so does every run |
| Collaboration.StepElsewhere | src/core/collaboration.rs:340-380 | an operation leaves every other resource alone |
| Collaboration.ChangeIs | src/core/collaboration.rs:285-505 | an operation that changes a record raises its revision by one and had passed every check against the record before |
| Collaboration.SameRevisionSameRecord | src/core/collaboration.rs:299-380 | revisions never go back, and one revision of a resource is one record |
| Collaboration.AtMostOneWinner | src/core/collaboration.rs:299-380 | of the operations on one resource submitted with one revision, or racing for an unowned one with none, at most one changes the record; the one exception is a first assignment that names a revision from one on |
| Collaboration.FirstAssignmentIgnoresTheRevision | src/core/collaboration.rs:299-320 | for every resource and every revision from one on, a run in which a first assignment and a later operation submitted with that revision both change the record |
| Collaboration.TwoWinnersIff | src/core/collaboration.rs:299-380 | two operations submitted with one revision can both win, in some run, exactly for the revisions from one on |
| Collaboration.Provenance | src/core/collaboration.rs:384-505 | every record tells who made it, in each state |
| Collaboration.OwnershipPassesByConsent | src/core/collaboration.rs:285-505 | over any run ownership moves from a to b only by a's release and an assignment, or by b accepting an offer of a to b that was still pending |
| Collaboration.HandoffReplay | src/core/collaboration.rs:414-452 | a repeated request changes nothing |
| Collaboration.ReleaseIff | src/core/collaboration.rs:480-503 | the owner who names the revision releases exactly a record that is not released; the whole record afterwards |
| Collaboration.ActivateIff | src/core/collaboration.rs:384-406 | and activates exactly an assigned or handed-over one |
| Collaboration.RequestHandoffIff | src/core/collaboration.rs:414-449 | and offers exactly an assigned or active one; the session stays, a given note replaces the note |
| Collaboration.AcceptHandoffIff | src/core/collaboration.rs:454-475 | exactly the agent to whom an offer is pending accepts it; the session is cleared and the note stays |
| Collaboration.AssignIff | src/core/collaboration.rs:285-338 | anybody takes over a released record by naming its revision, and a new one with any revision while there is room; the record afterwards |
| Collaboration.OthersAreRefused | src/core/collaboration.rs:340-380 | anybody else, and any other revision, is refused |
| Collaboration.FailedWriteChangesNothing | src/core/collaboration.rs:340-380 | a failed write changes nothing and is reported when there was something to write |
| Collaboration.NamesAreRefusedIff | src/core/collaboration.rs:255-265 | a name is refused exactly when it is empty, too long, or contains a separator, a null or two dots in a row; a note when it is too long or contains a null or a line break |
| Collaboration.PlainNamesAreValid | src/core/collaboration.rs:255-265 | up to 256 ASCII letters and digits are a valid name |
| Breaker.CircuitBreaker.Allow | src/mcp/circuit_breaker.rs:122-146 | who is admitted and the phase after |
| Breaker.CircuitBreaker.Enter | src/mcp/circuit_breaker.rs:216-243 | the gate counts rejections and saturates |
| Breaker.CircuitBreaker.RecordSuccess | src/mcp/circuit_breaker.rs:149-153 | closes and clears |
| Breaker.CircuitBreaker.RecordFailure | src/mcp/circuit_breaker.rs:157-175 | when a failure trips the breaker |
| Breaker.HistoryDecides | src/mcp/circuit_breaker.rs:122-175 | over any calls and results the phase is closed exactly when fewer failures than the threshold were recorded since the last success, even when the 32-bit failure counter wraps; the open counter is the number of tripping failures, saturated, as long as it does not wrap |
| Breaker.FailureTripsIff | src/mcp/circuit_breaker.rs:157-175 | a failure trips the breaker exactly when it is not closed or this failure reaches the threshold |
| Breaker.InstantsArePast | src/mcp/circuit_breaker.rs:122-175 | no instant it keeps lies after the last event |
| Breaker.SelfHealing | src/mcp/circuit_breaker.rs:122-147 | a call made max(cooldown, probe timeout) after the last event is admitted, from every reachable state |
| Breaker.AdmissionBound | src/mcp/circuit_breaker.rs:122-147 | while not closed, calls within T with no result between are admitted at most 1 + T / probe timeout times |
| Breaker.CooldownHolds | src/mcp/circuit_breaker.rs:122-175 | after a tripping failure none is admitted before the cooldown ends unless a success is recorded |
| Breaker.AdmittedIff | src/mcp/circuit_breaker.rs:122-146 | a call is admitted exactly when the breaker is closed, open with its cooldown over, or half-open without a probe younger than a minute |
| Breaker.AdmittedAfterCooldown | src/mcp/circuit_breaker.rs:122-175 | right after the cooldown of a tripping failure a call is admitted as the probe, however short the cooldown, and a second one a minute later |
| Breaker.SuccessCloses | src/mcp/circuit_breaker.rs:149-153 | a success closes the breaker whatever went before, and then every call is admitted |
| MemoryStore.Store.MigrateLegacyJsonl | src/core/memory.rs:370-408 | the loop, the bound, and where a crash leaves the files |
| MemoryStore.Store.Upsert | src/core/memory.rs:159-195 | as a map update that keeps place and creation time; succeeds exactly on valid input with room |
| MemoryStore.Store.UpdatePartial | src/core/memory.rs:263-299 | changes the given fields of one entry and nothing else; succeeds exactly when it says |
| MemoryStore.Store.Delete | src/core/memory.rs:333-343 | removes one entry, the others keep their order |
| MemoryStore.MergeShape | src/core/memory.rs:380-396 | the merged list is the old entries and then records under legacy ids, ids unique, every line's id present |
| MemoryStore.MergeAgain | src/core/memory.rs:382-384 | merging again adds nothing |
| MemoryStore.AttemptsReach | src/core/memory.rs:370-408 | between attempts, crashes included, the files are untouched, published or done |
| MemoryStore.MigrationIsExactlyOnce | src/core/memory.rs:370-408 | after any attempts the completed run leaves the old entries and one record per non-blank line in order exactly when no old entry used one of the legacy ids |
| MemoryStore.MergeFailsIff | src/core/memory.rs:382-386 | the merge fails exactly on a malformed line whose id is not there yet |
| MemoryStore.MalformedLineChangesNothing | src/core/memory.rs:385-386 | and then neither file changes |
| MemoryStore.MigratedEntriesHoldTheirLines | src/core/memory.rs:380-396 | after a completed migration the old entries come first, and for the i-th line whose id was free there is a project entry with that id, the content of the line, no tags, created and updated at its time; without taken ids it stands i places after the old ones |
| MemoryStore.LegacyLinesAreExact | src/core/memory.rs:380-381 | the lines migrated are exactly those of the text that are not blank, in order |
| MemoryStore.MigrationCompletesIff | src/core/memory.rs:370-408 | an uninterrupted attempt completes exactly when there is nothing to migrate, or every line with a free id is well formed and the new entries, if any, fit |
| MemoryStore.InputIsRefusedIff | src/core/memory.rs:422-439 | the inputs that are refused, with the bounds in numbers |
| Checkpoint.StateFile.Execute | scripts/checkpoint_state.py:304-340 | the two commands with every refusal, and the file after |
| Checkpoint.StateFile.ApplyAssignments | scripts/checkpoint_state.py:221-232 | the loop over the assignments |
| Checkpoint.WrittenIsValid | scripts/checkpoint_state.py:129-202 | every written document is a valid version 4 document that loads as itself |
| Checkpoint.LiftIsOneIff | scripts/checkpoint_state.py:76-126 | two documents have one lift exactly when they agree but for the version, a missing operation id counting as null |
| Checkpoint.LiftIsInjective | scripts/checkpoint_state.py:96-126 | so documents of one version have one lift exactly when they differ at most in how they spell the version |
| Checkpoint.LiftForgetsTheVersion | scripts/checkpoint_state.py:96-126 | and a version 2 document shares its lift with the version 3 documents that add a null operation id, and with no other version 3 document |
| Checkpoint.CommandFollowsTheTable | scripts/checkpoint_state.py:209-218 | a command moves the status along the table or not at all, and an update never moves it |
| Checkpoint.RunFollowsTheTable | scripts/checkpoint_state.py:41-57 | the statuses of any run follow the table |
| Checkpoint.CompletionPassesReview | scripts/checkpoint_state.py:41-57 | every run from another status to COMPLETED or MERGING passes through PR_OPEN or REVIEWING, and MERGING is entered from those only |
| Checkpoint.MergingCompletesDirectly | scripts/checkpoint_state.py:53-53 | from MERGING one command completes |
| Checkpoint.AllowedIff | scripts/checkpoint_state.py:41-57 | the table read backwards: the statuses that lead to each status |
| Checkpoint.TransitionAcceptedIff | scripts/checkpoint_state.py:304-326 | a plain transition is accepted exactly along the table, and changes the status and the time stamp and nothing else |
| Checkpoint.ConditionsGuard | scripts/checkpoint_state.py:306-321 | a transition whose condition on status or operation does not hold, or that names no status, is refused |
| Checkpoint.EmptyUpdateIsAccepted | scripts/checkpoint_state.py:333-340 | an empty update renews the time stamp and nothing else |
| Checkpoint.AssignmentAcceptedIff | scripts/checkpoint_state.py:129-202 | setting one field is accepted exactly when the value fits the field, whatever the others hold, and does not move the status; it changes this field and the time stamp only |
| Checkpoint.ClaimIsValidIff | scripts/checkpoint_state.py:129-202 | which recovery claims are valid |
| Checkpoint.NewIsValidIff | scripts/checkpoint_state.py:129-202 | a new document is valid in every status, exactly when its time is null or a stamp |
| Checkpoint.LiftAddsNothing | scripts/checkpoint_state.py:76-93 | a lift adds no recovery attempt, no claim and no reviewed head |

## Left out

- Real files, fsync, JSON, SHA-256 and clocks: replaced by maps, publish steps that succeed or fail as a whole, an injective digest and time arguments.
- Engine.WindowStore.Save: a write that is published and then reported as failed is not modelled; a save succeeds or fails as a whole.
- Engine.OffloadStore.Put: a record write that fails half-way is not modelled; a failed write leaves the record as it was, and listing the directory does not fail.
- Engine.WindowStore.Load: windows that are not JSON or of another schema version are not modelled; a missing window is the empty one.
- EngineRuns.ApplyKeepsInv: the token sums and counts are unbounded; the program's machine words cannot overflow on content that fits in memory.
- Scoring.RawScoreIsAScore: reals instead of 32-bit floats, so no rounding and no NaN; lowercasing is ASCII only.
- Breaker.CircuitBreaker.RecordFailure: the failure counter wraps at 32 bits, as in a build without overflow checks; a build with them would stop there.
- EngineModel: timestamps, the reason of an offload or a decision, the list of strategies in the metadata note and the session fields of snapshots.
- The locks around the engine's fields: each operation is one step; interleaving inside an operation is not modelled.
- FsCoordinator.Coordinator.AcquireOne: the in-process mutex, released as soon as it is taken, is left out; what other processes do appears as the outcome of each try, and stale reclaim is in FsLocks.
- FsLocks.SchedulesEnd: counts schedules without new requests, crashes and reclaims.
- Collaboration.Provenance: `updated_at` is not modelled.
- Collaboration.SameRevisionSameRecord: revisions are unbounded where the program's 64-bit revision would overflow.
- MemoryStore.MigrationIsExactlyOnce: the store lock is not modelled; attempts come one after another.
- Checkpoint.WrittenIsValid: .openhands/state.schema.json is not part of this model; the version 4 fields are those of the lifted template.
- Search, status, planner hints and score listing of the engine: lexical or counting views that would only add easy members.
- Configuration, command line, HTTP, provider clients, connectors, registries, and the task, session, agent, grant, project and workspace stores: adapters and simple tables.
