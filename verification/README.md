# crprune: the retention decision and the deletion protocol

crprune prunes a container registry. It inspects a repository of image manifests, decides which
to keep, and deletes the rest. This project models that decision, the protocol that carries it out,
and the algorithms both rely on, and proves what the program is for: nothing that is kept ever loses
a part, nothing protected is deleted, and locks come back when a deletion fails.

A repository is a graph of manifests. Each has index children, at most one subject, tags, an age and
locks. Cycles, self-references, repeated descriptors and missing children are all inputs of the model;
the shapes are those of the OCI Image Specification v1.1 (image index, manifest `subject`) and of the
section "Referrers Tag Schema" of the OCI Distribution Specification v1.1.

## How it is put together

- `Manifests`, `Closures`, `Sums`, `Order`: the vocabulary, least sets closed under edges, sums over
  finite sets, and the newest-first order.
- `Orphans`, `Rules`, `Matcher`, `Running`, `Evaluation`, `Retention`, `TagLocks`, `Decisions`,
  `DecisionRules`, `Selection`, `Prune`, `LazyGaps`, `LazyPlans`, `ManualPlans`: the decision. The passes
  that update manifests in place work on `Entry` objects; each is proved equal to a least set that mentions
  neither queues nor counters nor the order in which a map is walked. `Retention.Decider` grows its kept set
  as `decide` does.
- `Batches`, `DeletionOrder`: Kahn's layered sort over a multigraph and the graph it is run on.
- `Locks`, `Deletion`, `DeletionRuns`, `UnlockRuns`: the deletion protocol as a state machine. An `Event`
  is one step of a worker, of the registry or of an interruption; `Possible` sequences of events are the
  runs, with any order within a batch, any outcome of every request (including one that fails although it
  took effect) and an interruption anywhere. `RepositoryDeletion` uses the same machine for a whole
  repository.
- `Safety`, `DeletionJobs`, `Guarantees`, `Accounting`: the decision and the runs together.
- `Platforms`, `BlobBytes`, `Statistics`, `Plans`, `PlanItems`, `Execution`, `Generate`: platform
  propagation, byte accounting, plans, and rules generated from an image list.

The main result is `Guarantees.PruneSafe`: for every repository, rule set and plan, at every state of
every run, every remaining manifest has all the children it had at inspection; every remaining subject
has its referrers, but for the two kinds that may go first; everything without an update time, updated too
recently, running or locked, by locks that were never looked up as well, is still there; unless the plan
deletes the repository outright, a tagged manifest is left where the registry insists on one; and locks
come back. Of a manifest that is kept, or whose deletion was never started, every lock is as it was; of
one that was not deleted the same switches are off as before, once no worker is busy with it, unless the
registry failed to restore them. A repository deleted outright goes in one operation of the registry,
which is taken to remove all of it; such a plan is made only where nothing is protected.

`Guarantees.PlanStarts` shows that every job worked out for a plan, and every outright deletion, can
start, and `DeletionRuns.RunsGoOn`, `DeletionRuns.RunsEnd` and `DeletionRuns.RunsFinish` that runs neither
get stuck nor go on forever, and that every run can be finished from wherever it is.

## Where lazy tag locks make a difference

`pruneRepository` lists tag locks only after a first decision, for the manifests that decision selects,
and then decides again. One expects the outcome of knowing all tag locks from the start. That holds if
and only if a prune is in neither of two gaps (`Decisions.LazyLocksExact`), and so for the finished plan
(`LazyPlans.LazyPlanExact`):

- everything is kept already, so a tag-locked manifest with a missing child is never looked at; had its
  lock been known, the missing child would have failed the run (`LazyGaps.FirstGap`);
- the first decision fails on a missing child of a referrer kept for its age; had the lock on a tag been
  known, everything would have been kept before the referrer was looked at (`LazyGaps.SecondGap`).

Both need a rule with `must_delete_everything` and `delete_orphaned_manifests` and without
`ignore_missing_manifests`, and a run without `--include-locked`: a manifest with a missing child is an
orphan, and orphans that are neither deleted nor ignored stop a prune first
(`LazyGaps.PruneLazyExact`). Nothing protected is lost in either (`Decisions.LazyLocksSafe`).

## Notes on the model

- The guarantees speak of manifests by the fields of their documents (`Refers`, `HasChild`, `Held`, `IsLockOf`,
  `Untouchable`, `Preferred`); the lemmas named `...Exact` tie the functions that the methods compute with to
  these fields.
- A regular expression is a text and a language. A text that is anchored and holds no active
  metacharacter is read character by character; of any other text the language is arbitrary.
- The catch-all tag pattern `.+` of generated rules does not match a tag made of newlines only. Registries
  accept no such tag; with the tags they do accept, `Generate.InventoryKeeps` states the plain equivalence.

## Model

| member | source | states |
|---|---|---|
| Orphans.MarkOrphans | internal/pruner/orphan.go:19-67 | flags exactly the least set holding the manifests with a missing child or subject, closed upward to owners and referrers and downward to untagged manifests whose owners are all flagged; records exactly the manifests an index lists; for every map order, with repeated descriptors and cycles |
| Orphans.OrphanSetLeast | internal/pruner/orphan.go:11-18 | that set is closed and contained in every closed set |
| Orphans.NeedsExact | internal/pruner/orphan.go:19-44 | what a manifest needs, by its fields: what its entries list, and the subject it states or, stating none, its tag names |
| Manifests.RefersExact | internal/registry/manifest.go:105-110 | what a document refers to: the subject it states, even an empty one, before that of its tags |
| Manifests.ReferrersExact | internal/pruner/pruner.go:563-572 | the referrers of a digest are exactly the manifests whose fields refer to it |
| Order.SortOrdered | internal/pruner/eval.go:236-241 | sorting by byNewest lists no manifest after one it is newer than |
| Order.NewerTotal | internal/pruner/eval.go:236-241 | within a repository byNewest never ties two manifests, so the order is deterministic |
| Order.NewerExact | internal/pruner/eval.go:236-241 | within a repository one manifest comes before another exactly if it was updated later or, at the same time, its digest is smaller byte by byte |
| Order.PositionsBijective | internal/pruner/eval.go:156-164 | positions number the ranked manifests from 0 without gaps or ties |
| Order.PositionOrder | internal/pruner/eval.go:156-164 | a smaller position means exactly newer |
| Order.PositionsByTime | internal/pruner/eval.go:156-164 | of two ranked manifests the one updated later has the smaller position; at one time, the one with the smaller digest |
| Evaluation.Evaluator.constructor | internal/pruner/eval.go:29-78 | every ranked rule gets the positions of exactly its eligible matches; referrers and index children are not eligible |
| Evaluation.Rank | internal/pruner/eval.go:156-164 | the running count is the position of each selected manifest among the selected |
| Evaluation.Evaluator.Matches | internal/pruner/eval.go:168-181 | a ranked rule applies to the manifests in its window, an ordinary one by its criteria |
| Evaluation.Evaluator.KeepTag | internal/pruner/eval.go:114-132 | the verdict of the first rule matching tag and manifest; kept when none does |
| Evaluation.Evaluator.KeepUntagged | internal/pruner/eval.go:134-151 | the same for untagged manifests |
| Evaluation.Evaluator.Keep | internal/pruner/eval.go:89-108 | one kept tag keeps a tagged manifest; referrers are left to their subject |
| Evaluation.RulesKeepExact | internal/pruner/eval.go:89-151 | what the rules delete: what refers to nothing and is condemned, untagged by the first rule that settles it, tagged by the first rule that settles each of its tags |
| Evaluation.NewestKept | internal/pruner/eval.go:114-181 | `newest: N` followed by deleting everything keeps exactly the tagged images that fewer than N others were updated after, ties broken by digest |
| Evaluation.CriteriaExact | internal/pruner/eval.go:186-219 | the criteria by the fields: digest, update time against `now`, and one platform with known names that meets both constraints |
| Evaluation.RanksExact | internal/pruner/eval.go:41-77 | what takes part in a ranking, by the fields |
| Evaluation.WindowByTime | internal/pruner/eval.go:175-180 | nothing outside the window of N was updated later than anything in it, nothing outside that of -N earlier |
| Evaluation.WindowExact | internal/pruner/eval.go:175-180 | N selects the N newest of the ranked manifests, or all of them, and -N exactly the rest |
| Evaluation.WindowIn64Bits | internal/pruner/eval.go:175-180 | computed in 64 bits no step overflows and the test is exact, down to the minimum |
| Evaluation.RanksIndependent | internal/pruner/eval.go:41-77 | positions depend on the ranked manifests alone, tagged or untagged |
| Evaluation.OutsiderTakesNoSlot | internal/pruner/eval.go:41-77 | a referrer, an index child or a manifest the rule does not match changes no rank and no position when added, for tagged and untagged rules |
| Rules.ScanLiteralName | internal/rules/literal.go:24-57 | the scan finds the plain name a pattern text spells, if any |
| Rules.LiteralNameExact | internal/rules/literal.go:15-57 | the texts recognised as literal are exactly the anchored quotations of plain names, and the name is recovered |
| Rules.LiteralLanguage | internal/rules/literal.go:15-23 | a pattern recognised as literal, whoever wrote it, reads its name and nothing else |
| Rules.QuoteReads | internal/rules/generate.go:129-132 | the quotation of a literal reads exactly that literal |
| Rules.CharactersExact | internal/rules/literal.go:10-13 | which characters are active in a pattern, and which make up a repository name |
| Matcher.RepositoryMatcher.Match | internal/rules/matcher.go:30-47 | the indexed lookup returns the first matching rule of a sequential scan, or none when none matches |
| Matcher.RepositoryMatcher.constructor | internal/rules/matcher.go:14-27 | the index holds the first literal rule of every name and every other rule in order |
| Matcher.RepositoryShadows | internal/rules/warnings.go:44-93 | warns about a rule exactly when an earlier rule covers it, naming the earliest |
| Matcher.ShadowedNeverFirst | internal/rules/warnings.go:40-93 | a rule warned about is the first match of no repository name |
| Matcher.LiteralCoveredExactly | internal/rules/warnings.go:44-93 | a literal rule is covered exactly when an earlier rule matches its name, and otherwise is the first match of its name |
| Running.RunningMatch | internal/pruner/stats.go:189-216 | the first rule for the repository decides, by the first tag or digest rule that matches |
| Running.RunsExact | internal/pruner/stats.go:189-216 | an image runs exactly if, of the first rule for its repository, the first rule that names its digest, and one of its tags if it has any, keeps |
| Retention.Decider.KeepWithDependencies | internal/pruner/pruner.go:665-690 | adds exactly what the manifest transitively references and is not kept yet, each added manifest once; fails exactly when the manifest is absent or one of those lacks a child, and the rule does not ignore that |
| Retention.GrownClosed | internal/pruner/pruner.go:665-690 | from a kept set closed under dependencies the result is the least closed set with the manifest |
| Retention.Decider.Follow | internal/pruner/pruner.go:574-592 | closes the kept set under children and followed referrers, interleaving both worklists |
| Retention.Decider.KeepReferrers | internal/pruner/pruner.go:563-612 | the kept set becomes the least closed set over what was kept and the protected referrers |
| Retention.Decider.KeepRooted | internal/pruner/pruner.go:473-492 | the first pass keeps exactly what unselected, rule-kept and protected images reference |
| Retention.Decider.Decide | internal/pruner/pruner.go:470-514 | returns exactly the least set closed under present children and followed referrers, or everything under an all-or-nothing rule, or fails; whatever the order of the listing |
| Retention.Decider.FindLastTag | internal/pruner/pruner.go:525-549 | finds, when no tagged manifest is kept, the tagged one preferred to all others: healthy before orphaned, then image before referrer, then latest update, then smallest digest |
| Retention.Decider.KeepLastTag | internal/pruner/pruner.go:522-555 | keeps it with all that keeping it keeps, exactly when it is needed |
| Retention.BestMeans | internal/pruner/pruner.go:525-549 | the manifest picked is an orphan only if all tagged ones are, a referrer only if all those as healthy are, and none alike in both was updated later |
| Retention.KeptFromRooted | internal/pruner/pruner.go:473-513 | following referrers after the dependency pass reaches the same set as following both at once |
| Decisions.DecisionSound | internal/pruner/pruner.go:466-514 | every decision is closed and keeps everything out of scope, without update time, updated too recently, running, or locked unless locked ones are included |
| DecisionRules.DecisionExact | internal/pruner/pruner.go:466-514 | by the fields of the manifests: a decision is the least set that holds what is wanted for its own sake and, with a manifest, its children and referrers; or everything, under an all-or-nothing rule that something calls to keep; it fails only when every such set lacks a child and the rule does not ignore that |
| Decisions.UntouchableExact | internal/pruner/pruner.go:631-659 | what is protected once all tag locks are known, exactly by the fields of the manifest and the locked tags of the repository |
| Decisions.AllOrNothing | internal/pruner/pruner.go:494-513 | under must_delete_everything the decision is everything, or the closure of the age-protected referrers; any kept image or pinned manifest forces everything |
| Decisions.NothingKeptMeansUnprotected | internal/pruner/pruner.go:335-341 | a decision keeping nothing means that nothing has to stay and everything is in scope |
| Decisions.LazyLocksExact | internal/pruner/pruner.go:305-333 | deciding lazily equals deciding with all tag locks if and only if neither gap applies |
| Decisions.LazyLocksSafe | internal/pruner/pruner.go:305-333 | the second decision only grows the first, keeps what any tag lock protects, and deletes only manifests whose locks were loaded |
| LazyGaps.PruneLazyExact | internal/pruner/pruner.go:299-333 | for a prune not stopped by orphans, the exact condition, and the rule and options a gap needs |
| LazyGaps.FirstGap | internal/pruner/pruner.go:319-326 | a repository in the first gap: the lazy run keeps everything, with all locks known it fails |
| LazyGaps.SecondGap | internal/pruner/pruner.go:494-513 | a repository in the second gap: the lazy run fails, with all locks known it keeps everything |
| LazyPlans.LazyKeeps | internal/pruner/pruner.go:336-341 | once the lazy run decided, keeping the last tag keeps and fails on the same as with all tag locks known |
| LazyPlans.LazyPlanExact | internal/pruner/pruner.go:305-356 | a plan made loading tag locks lazily and one made knowing them all are the same, the last tag included, exactly outside the gaps |
| LazyPlans.DeletedLoaded | internal/pruner/pruner.go:319-333 | every manifest a plan deletes has exactly its locked tags loaded |
| TagLocks.LoadTagLocks | internal/registry/lock.go:19-46 | records the locked tags of the given manifests in place, and of no other; fails exactly when cancelled, or when tags it needs are of a repository with an invalid name or cannot be listed |
| TagLocks.FilterLocked | internal/registry/lock.go:48-58 | computes the locked tags of a manifest |
| TagLocks.LockedTagsExact | internal/registry/lock.go:48-58 | exactly the tags that are locked, none when none is |
| Selection.ExpandSelection | internal/pruner/selection.go:48-77 | the least set closed under children and referrers; fails exactly when that holds an absent digest, unless interrupted |
| Selection.ScopeExact | internal/pruner/selection.go:48-77 | what selecting a manifest selects: what its entries list, present or not, and what refers to it |
| Selection.ManualRuleKeepsNothing | internal/pruner/selection.go:35-42 | the rule of a manual plan matches its repository only and keeps no image |
| Selection.ManualPlanExact | internal/pruner/pruner.go:474-492 | a manual plan deletes exactly the selected manifests outside the closure of everything unselected or protected |
| Prune.ReportOrphans | internal/pruner/orphan.go:71-88 | fails exactly on an orphan the rule neither ignores nor deletes |
| Prune.Arrange | internal/pruner/pruner.go:305-305 | all manifests, latest update first and at one time smallest digest first, whatever order the map yields |
| Prune.DecideTwice | internal/pruner/pruner.go:312-341 | decides, loads the locks of the candidates, decides again and keeps the last tag where needed; fails exactly when a decision or the last tag lacks a dependency, or tag locks that matter cannot be looked up |
| Prune.PlanRepository | internal/pruner/pruner.go:285-356 | the plan for a repository: keeps what the lazy decision keeps, with the last tag where the registry insists on one, deletes exactly the rest, and the repository outright exactly when nothing is kept; states exactly when there is no plan; leaves loaded exactly the tag locks its decision asked for |
| Batches.Layers | internal/registry/delete.go:297-323 | Kahn's layers of a multigraph; fails exactly when the graph has a cycle; otherwise every node is in one batch, every parent in an earlier one |
| Batches.LevelsFall | internal/registry/delete.go:297-323 | no path upward from a node is longer than its batch number |
| Batches.LevelReached | internal/registry/delete.go:297-323 | a path to a root as long as the batch number exists |
| Batches.StuckHasCycle | internal/registry/delete.go:320-322 | manifests each waiting for another of them contain a cycle |
| DeletionOrder.AddEdges | internal/registry/delete.go:280-296 | records the edges from an index to what it lists, and from a subject to its referrer unless the referrer lists it |
| DeletionOrder.DeletionBatches | internal/registry/delete.go:257-324 | rejects invalid and repeated manifests; then fails exactly when the deletion order ties a manifest to itself; otherwise partitions the input into batches, in which a manifest waits for exactly those that list it and for the subject its fields name, unless it lists that itself, all in earlier batches |
| Locks.Lockable.Unlock | internal/registry/acr/acr.go:311-326 | enables both switches unless neither is off; whatever became of the request, the relock returned names exactly the switches that were off and restores them |
| Locks.RestoreExact | internal/registry/acr/acr.go:315-325 | restoring brings back exactly the original locks from any state without other locks |
| DeletionRuns.RunSound | internal/registry/delete.go:147-222 | the invariant of order, registry contents and locks holds at every state of every run |
| DeletionRuns.ParentsKeepChildren | internal/registry/delete.go:161-196 | while a manifest is in the registry, everything to be deleted after it is too |
| DeletionRuns.DeletedInOrder | internal/registry/delete.go:189-191 | the returned list has every manifest once, after all its parents, and none still in the registry |
| DeletionRuns.FinishedExactly | internal/registry/delete.go:138-146 | an uninterrupted run deletes exactly the manifests whose deletion, with that of all their ancestors, the registry accepts; an interrupted one only such, with all their ancestors |
| DeletionRuns.DeletedConfirmed | internal/registry/delete.go:189-191 | the list returned holds exactly the manifests whose deletion the registry confirmed |
| DeletionRuns.SuccessExactly | internal/registry/delete.go:197-197 | no error is returned exactly when the run was not interrupted and everything was deleted |
| DeletionRuns.LocksSurvive | internal/registry/lock.go:75-149 | the locks of a manifest whose deletion was never started are as before, be it held back, skipped by an interruption or in a batch that never came; those of failed deletions have the same switches off as before, unless restoring failed; also after an interruption while unlocking and after an unlock that failed but took effect |
| DeletionRuns.NeverStarted | internal/registry/delete.go:199-204 | from any state a run reaches on, a manifest not started keeps its locks as they are, and none of them counts as failed to restore |
| DeletionRuns.LocksBack | internal/registry/lock.go:125-149 | once no worker is busy with a manifest that was not deleted, and so in every finished run, the same switches are off as before, unless restoring failed |
| DeletionRuns.OtherLocksUntouched | internal/registry/lock.go:75-102 | locks of no manifest in the run never change |
| UnlockRuns.RequestsUnlocked | internal/registry/delete.go:199-213 | whenever the deletion of a manifest can be requested, every lock of it was tried, and is off if it could be read and the unlock took effect |
| DeletionRuns.EveryOutcome | internal/registry/acr/acr.go:306-310 | an interruption can come at any time, unlocks and restores can end in any way, and a request that is not accepted, or is interrupted, can fail with or without effect |
| DeletionRuns.UnrestoredRefused | internal/registry/lock.go:125-149 | a lock counts as failed to restore only if the registry refused to restore one of its manifest |
| DeletionRuns.RunsGoOn | internal/registry/delete.go:161-196 | a run that is not finished can take a step, whatever the registry answers |
| DeletionRuns.RunsEnd | internal/registry/delete.go:161-196 | no run is longer than the work it started with |
| DeletionRuns.RunsFinish | internal/registry/delete.go:161-197 | every run can be finished from any state it reaches |
| RepositoryDeletion.AllTargetsExact | internal/registry/lock.go:104-123 | unlocking a repository takes off exactly the locks its manifests report and those of their locked tags; skipping manifests without one misses none |
| RepositoryDeletion.RepositoryAllOrNothing | internal/registry/delete.go:228-251 | success is reported exactly when the request was confirmed, interrupted since or not, and then the repository is gone; uninterrupted it succeeds exactly when the name is well-formed and the registry accepts; its locks are untouched when nothing was started, and as before after a failure unless restoring failed; no other lock changes |
| Safety.DependenciesStay | internal/registry/delete.go:138-146 | at every state of every run every remaining manifest has the children it had at inspection |
| Safety.ReferrersStay | internal/registry/delete.go:284-295 | at every state of every run every remaining subject has the referrers whose fields name it, except an orphan the rule deletes while its subject is kept, and an index that lists its own subject |
| DeletionJobs.DeletionJob | internal/registry/delete.go:147-156 | fails exactly when a manifest to delete is malformed or their order ties one to itself; otherwise the batches and locks make a well-formed run of exactly these manifests, each after those that list it and after its subject, and each with exactly its own lock and those of its locked tags to take off, none unless asked to |
| DeletionJobs.LockTargetsExact | internal/registry/lock.go:87-100 | the locks taken off a manifest are its own, if it is locked, and those of its locked tags |
| DeletionJobs.FreshRun | internal/registry/delete.go:161-196 | every such job has a run, whatever locks the registry holds |
| Guarantees.WholeUnprotected | internal/pruner/pruner.go:335-336 | a repository is deleted outright only if everything in it has an update time, long enough ago, and is in scope, and nothing runs or, unless locked ones are included, is locked or carries a locked tag |
| Guarantees.PlanSafe | internal/pruner/pruner.go:305-356 | what a plan keeps is closed and contains what has no update time or a too recent one, runs, is out of scope or, unless locked ones are included, is locked or carries a locked tag; and a tagged manifest where one must stay |
| Guarantees.PruneLocks | internal/registry/lock.go:75-149 | whatever was loaded, no lock of a kept manifest or of a tag of it ever changes, and the locks of what a run failed to delete come back |
| Guarantees.PlanStarts | internal/pruner/pruner.go:400-424 | every job worked out for a plan, and every outright deletion, is the start of a run of that plan |
| ManualPlans.ManualPlanDeletes | internal/pruner/selection.go:16-43 | of what the requested digests expand to, a manual plan deletes exactly what nothing unselected or protected, by any tag lock either, needs; less, where no tag would be left, the best tagged manifest with all that keeping it keeps |
| ManualPlans.PlanManual | internal/pruner/selection.go:21-77 | from requested digests to that plan; stops only when interrupted, at a digest the expansion reaches and the repository lacks, or when tag locks it needs cannot be looked up |
| Guarantees.PruneSafe | internal/pruner/pruner.go:256-457 | the guarantee from inspection to the last request, of what is left and of the locks, at every state of every run of every plan, piecewise or outright, or given up because the manifests are malformed or cannot be ordered |
| Platforms.ResolveIndexPlatforms | internal/registry/platform.go:15-81 | gives every manifest, without duplicates, exactly the least set of its platforms; terminates on cyclic indexes |
| Platforms.PlatformSetLeast | internal/registry/platform.go:10-14 | the set holds what documents and descriptors state, is closed under lifting through every descriptor, and is the least such set |
| Platforms.OwnPairsExact | internal/registry/platform.go:32-61 | the pairs a manifest states are the platforms it and its descriptors name, with unknown names emptied, unless nothing is left |
| Platforms.LiftedExact | internal/registry/platform.go:62-80 | what a pair gives the index that lists its manifest: the names of the descriptor before its own, nothing if they conflict |
| Platforms.LiftMeets | internal/registry/platform.go:64-77 | a pair is lifted exactly when it and the descriptor have a common refinement, and then to the most general one |
| BlobBytes.ValidateBlobSizes | internal/registry/fetch.go:192-208 | accepts exactly the repositories whose blob sizes agree and whose bytes fit 64 bits, in any order |
| BlobBytes.DocumentBytes | internal/registry/manifest.go:85-99 | a manifest counts with its document, its config and every layer |
| Statistics.CountBlobs | internal/pruner/stats.go:230-263 | in 64-bit arithmetic, counts every named blob not yet seen once, with the size it first occurs with, every blob without a digest each time, and every reference |
| Statistics.CalculateStats | internal/pruner/stats.go:218-263 | of a validated repository the counts are exact whatever the order of the manifests, and nothing wraps |
| Statistics.FreedBytes | internal/pruner/pruner.go:357-358 | seen minus kept is exactly the size of the blobs no remaining manifest references |
| Plans.Total.Add | internal/pruner/pruner.go:66-76 | adds each of the counts, in 64-bit arithmetic for bytes, and keeps a balanced total balanced |
| Plans.PlusBalanced | internal/pruner/pruner.go:66-76 | seen = kept + deleted for manifests and bytes survives addition, even when totals wrap |
| Plans.OutcomeExact | internal/pruner/pruner.go:425-447 | the counts of one repository balance exactly after any partial success, and the bytes deleted are those of blobs only confirmed manifests referenced |
| Plans.CountOutcome | internal/pruner/plan.go:126-136 | computes these counts from the confirmed deletions |
| Execution.DeletionPlan.Execute | internal/pruner/plan.go:94-148 | runs once; leaves a trace of first verifying every snapshot and then each again right before its deletion; stops at the first failure; counts exactly what the deletion runs confirmed; on success the counts are those announced |
| Execution.RequestsVerified | internal/pruner/plan.go:100-125 | in such a trace every request directly follows its own snapshot verified, after all earlier deletions |
| Execution.DeletionPlan.Summary | internal/pruner/plan.go:60-75 | announces the counts of carrying out every item in full |
| PlanItems.TotalBalanced | internal/pruner/plan.go:126-141 | the accumulated total balances after any number of items, the last one failed or not |
| PlanItems.TotalFields | internal/pruner/plan.go:126-141 | each count of the total is the sum of that count over the items carried out |
| PlanItems.TotalBytes | internal/pruner/plan.go:126-141 | so is each number of bytes, in 64-bit arithmetic |
| PlanItems.CountedFields | internal/pruner/plan.go:126-141 | what one item counts as: the manifests confirmed, the others, its bytes, and whether its repository remains |
| PlanItems.SummaryKept | internal/pruner/plan.go:59-75 | a plan carried out in full counts what it announced |
| Accounting.RunConfirms | internal/pruner/pruner.go:425-434 | a finished run confirms different manifests, only ones it was to delete, and all of them on success |
| Accounting.RunAnswers | internal/pruner/plan.go:112-125 | what a finished deletion returns, of single manifests, of a whole repository or when they cannot be ordered, is confirmed manifests of the plan only, all of them on success, and all or none of a repository |
| Accounting.RunBalances | internal/pruner/pruner.go:425-447 | the counts of a prune balance whatever its run achieved |
| Generate.KeepRules | internal/rules/generate.go:53-127 | one rule per listed repository however often it is listed, in the order of first listing, for that name only, keeping what the list names, ignoring missing manifests and leaving orphans alone; fails at the first unreadable line |
| Generate.GeneratedKeeps | internal/rules/generate.go:97-125 | a generated rule keeps an image exactly when it is listed by digest or tag, or has a tag the catch-all does not match |
| Generate.InventoryExact | internal/pruner/stats.go:189-216 | the inventory marks exactly the listed images as running, and the evaluator agrees except on images with such a tag |
| Generate.InventoryKeeps | internal/rules/generate.go:97-125 | of images with tags as registries accept them, the rules keep exactly those that run, which are exactly those listed |
| Generate.OrderIrrelevant | internal/rules/generate.go:41-45 | neither the order nor the repetition of lines changes what the rules keep |

## Left out

- Which snapshots verify and how the registry answers within a run are inputs of the model; a run starts from the manifests inspected.
- HTTP clients, retries, tokens, pagination, and the GHCR backend: the registry is modelled by what its requests can bring about.
- The guard that leaves a repository alone when a listed manifest has no document (internal/pruner/pruner.go:277-284): the model starts where every listed manifest has one.
- Manifest download, parsing, hashing and the cache: the model starts from a map of digests to documents, each keyed by its own digest.
- Deriving tag subjects from tags of the referrers tag scheme, and filling in platforms from image configs: the results are fields of a document.
- The regular-expression engine beyond anchored fixed texts, and the rule-file parser.
- The loop over repositories in `Prune`, with its handling of denied and skipped repositories, and the rule that all candidate names are literal.
- The recheck of a repository before deletion (`VerifyRepositorySnapshot`), which enters only as an outcome, and writers outside crprune between that recheck and the deletion.
- The terminal explorer, progress reports, logging, and the numbers of lines read and matched in an image list.
- Wall-clock time: times are integers, `now` is fixed for one decision, and 0 is the unknown time.
- The `shared` ratio of the statistics and the other per-repository statistics (tagged, untagged, newest, oldest, running counts).
- The limit on parallel requests: a batch may run in any order, with any overlap of its steps, and the locks of a manifest come off and go back in any order.
- Which failures are reported when a run was interrupted: a failed deletion may or may not be, as the run returns an error in any case.
- The pair of repository and digest stands for the text `repository@digest`; repository names hold no `@`.
- Locks on a tag are assumed to belong to one manifest, as a tag names one manifest of its repository.
- The library sort is modelled as an insertion sort, and the order of each manifest's platform list is not stated.
- Integers that count manifests are unbounded; byte counts wrap at 64 bits.
