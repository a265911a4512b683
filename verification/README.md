# A model of the platform's core protocols and algorithms

This project models the parts of the platform that carry state or arithmetic and proves what they are for:
the memory service's clique finder and fact consolidation, its skill planner and its result re-ranking, the
deployment daemon's rollout queue and reconcile cycle, the browser driver's request table, the scheduler's
event triggers, the answering-machine controller, the clone detector's edit distance and scope tokens, and
four string codecs. `dafny verify dfyconfig.toml` checks everything.

Programs that update variables or objects are methods and classes. Each is proved equal to a function of its
inputs or old state, and the laws are proved about that function. Concurrent code (`Cdp`, `CdpReplies`, `Wakeups`,
`TriggerDelivery`) is a transition system whose invariant is proved for every step and every run. A call to a
model, an embedder, a database, a registry, `nomad` or GitHub has an arbitrary outcome, which the caller passes in where
a law depends on it.

Some properties one might expect are false of the code. Each has its exact condition and, where it helps, an
example: the clique size limit (`SizeLimitKept`), wakeups of a daemon whose channel is
made only when its loop starts (`WakeupsKeptIff`, `AllRunsKeepWakeupsIff`, `LostWithoutChannel`), accepted
rollouts that a later request displaces (`RunIffNotDisplaced`, `DisplacedExample`), frame durations read as
timestamps (`DurationsAddUpIff`), array elements that are not UTF-8 (`RoundTripIff`), tokens inside the placeholder
word (`RedactionIsCompleteIff`) and trigger rows that re-insertion alters (`RestoredIff`).

Where the pieces are:

- `Wrappers`, `Sorting`, `GoStrings`, `Utf8`: shared types and what is taken from Go's library
- `Cliques`, `CliqueLaws`, `CosineCliques`, `Signature`, `FactStore`, `Consolidation`: facts
- `SkillPlans`, `SkillPlanLaws`, `SkillStaging`: skills
- `Cosine`, `Mmr`: ranking
- `Wakeups`, `Rollouts`, `PendingChanges`, `Reconcile`: deployment
- `Cdp`, `CdpReplies`, `Triggers`, `TriggerDelivery`, `Amd`: protocols and controllers
- `EditDistance`, `CloneTokens`: clone detection
- `Like`, `PgArray`, `ImageRef`, `Sanitizer`: codecs

## Model

| member | source | states |
|---|---|---|
| `Cliques.BuildCliqueEdges` | services/coven/extractor.go:798-825 | the two nested loops give the eligible pairs of the group in similarity order, ties by the two IDs |
| `Cliques.MatchesAllCliqueMembers` | services/coven/extractor.go:827-835 | true exactly if the item is within the bounds of every member |
| `Cliques.ExpandClique` | services/coven/extractor.go:837-873 | the candidate loop and the growing loop compute the greedy expansion of an edge against the used IDs |
| `Cliques.CoverEdges` | services/coven/extractor.go:896-911 | the loop over edges with its mutable set of used IDs computes the greedy cover |
| `Cliques.FindCompleteLinkageCliques` | services/coven/extractor.go:875-914 | the whole finder equals the recursive specification that the clique laws are about |
| `CliqueLaws.EdgesAreExact` | services/coven/extractor.go:798-825 | an edge is listed if and only if it joins two different positions, is within the bounds and is not entirely at or below a positive watermark; the list is sorted |
| `CliqueLaws.GroupIsExact` | services/coven/extractor.go:875-887 | the working group is exactly the embedded items, each once |
| `CliqueLaws.ExpandIsSound` | services/coven/extractor.go:837-873 | an expansion starts with its edge, is pairwise within the bounds, uses no used ID twice or again, and stays within the size limit |
| `CliqueLaws.ExpandIsMaximal` | services/coven/extractor.go:837-873 | an expansion below the size limit admits no further unused item |
| `CliqueLaws.ExpandTakesClosest` | services/coven/extractor.go:857-871 | the next to join is always the closest to the edge, by the smaller of two similarities and then by ID, of all who could join, and someone joins while somebody can and there is room |
| `CliqueLaws.CliquesAreSound` | services/coven/extractor.go:798-914 | every clique of every input is pairwise within the bounds, sorted by ID, has an item above a positive watermark, shares no ID with an earlier clique, and is maximal among items unused by earlier cliques |
| `CliqueLaws.SizeLimitKept` | services/coven/extractor.go:782-796 | clique sizes respect the minimum always and the maximum if and only if the caller does not ask for cliques of exactly one |
| `CliqueLaws.OversizeExample` | services/coven/extractor.go:782-796 | limits (1, 1) over two linked items give a clique of two |
| `CliqueLaws.CliquesCover` | services/coven/extractor.go:894-911 | with minimum size two, every eligible pair has an end in some clique |
| `CliqueLaws.CliquesFollowSimilarity` | services/coven/extractor.go:813-823 | with minimum size two, each clique holds a pair that goes before every eligible pair still free when it was formed: more similar, or as similar with the smaller IDs |
| `CliqueLaws.PairsStaySmall` | services/coven/extractor.go:894-911 | if nothing is found, every eligible pair sits in a clique that is too small and that nobody can join |
| `CliqueLaws.LinkedGroupIsFound` | services/coven/extractor.go:894-911 | a linked group of the minimum size gives some clique if two of its members have no further common neighbour |
| `CliqueLaws.CliquesIgnoreOrder` | services/coven/extractor.go:885-914 | for unique IDs any permutation of the items gives the same sequence of cliques |
| `CosineCliques.CosineIsSymmetric` | services/coven/mmr.go:8-22 | cosine similarity is symmetric, so the clique laws apply to it |
| `Signature.JoinInjective` | services/coven/extractor.go:943-950 | comma-joined decimal IDs determine the list of IDs |
| `Signature.SignatureIdentifiesIds` | services/coven/extractor.go:937-951 | two cliques have the same signature if and only if they hold the same IDs |
| `FactStore.Store.InsertFact` | services/coven/db.go:277-296 | a successful insert adds one fact under a new, larger ID and changes nothing else; a failed one changes nothing |
| `FactStore.Store.ReinforceFact` | services/coven/db.go:333-337 | a success raises one count by one and changes nothing else |
| `FactStore.Store.DeleteFact` | services/coven/db.go:340-342 | a success removes exactly the named fact |
| `FactStore.Store.AllFacts` | services/coven/db.go:597-641 | reads exactly the stored facts, each once |
| `FactStore.Store.UpdateWatermark` | services/coven/db_extraction.go:255-274 | the stored watermark becomes the larger of old and offered, or stays on failure |
| `FactStore.SoundAfterInsert` | services/coven/extractor.go:1061-1084 | inserting a replacement keeps the history sound: nothing lost, deletions justified, other facts untouched, every stored fact either seen by the last read or inserted since, and every inserted text one of the reply |
| `FactStore.RepliesAfterInsert` | services/coven/extractor.go:1048-1084 | every inserted text stays a non-blank trimmed text of the reply to the submission before it, several of them in the order of the reply |
| `FactStore.SoundAfterDelete` | services/coven/extractor.go:1123-1128 | deleting a source keeps the history sound if a replacement of its own clique is stored |
| `FactStore.StoredAsLoggedLater` | services/coven/extractor.go:1061-1130 | every event keeps the stored IDs those of the log, every stored and every read fact an initial one as it was or one the run inserted, and inserted facts outside submitted cliques stored |
| `Consolidation.ExtractConsolidatedTexts` | services/coven/extractor.go:1048-1059 | the first two non-blank replies, trimmed |
| `Consolidation.ReplacementTextsLaws` | services/coven/extractor.go:1048-1059 | at most two texts, none blank or padded |
| `Consolidation.CandidatesAreReplies` | services/coven/extractor.go:1048-1059 | each candidate is one of the replies, trimmed and not blank |
| `Consolidation.LaterCandidatesComeLater` | services/coven/extractor.go:1048-1059 | later candidates come from later replies |
| `Consolidation.AllUsableAreCandidates` | services/coven/extractor.go:1048-1059 | while there is room no usable reply is passed over |
| `Consolidation.CandidateMayBeInserted` | services/coven/extractor.go:1112-1117 | the next candidate is one that the history allows to be stored |
| `Consolidation.StrongestCount` | services/coven/extractor.go:1105-1110 | the largest reinforcement count of the clique, at least one |
| `Consolidation.InsertAndReinforce` | services/coven/extractor.go:1061-1084 | on success exactly one new fact with the text and a count between one and the smaller of ten and the strongest source, exactly that if no call fails; on failure nothing |
| `Consolidation.InsertReplacements` | services/coven/extractor.go:1112-1117 | each inserted replacement adds one fact, and the first stands for all sources before any deletion |
| `Consolidation.DeleteSources` | services/coven/extractor.go:1123-1128 | without a failure exactly the sources disappear |
| `Consolidation.ConsolidateSingleFactClique` | services/coven/extractor.go:1086-1130 | the submission is logged with the reply, and only texts of the reply are stored; sources are deleted only after a replacement was stored; exactly a reply with too few or too many usable texts leaves the facts as they were without a failure; a failure-free pair shrinks the store by one |
| `Consolidation.ConsolidateCliqueBatch` | services/coven/extractor.go:1132-1154 | only cliques of the batch are submitted, none twice, and all of them unless cancelled; without a failure the store shrinks by exactly the returned count |
| `Consolidation.FoundIsBatch` | services/coven/extractor.go:918-925 | the cliques found among stored facts are disjoint pairs of stored facts |
| `Consolidation.KeepUntried` | services/coven/extractor.go:1015-1021 | keeps only cliques found, each with a signature not tried before, and one for every new signature; what is kept stays disjoint |
| `Consolidation.EmittedIsClosePair` | services/coven/extractor.go:1016 | an emitted clique is two of the rows, in ID order, at least 0.75 similar, the later one above a positive watermark |
| `Consolidation.SubmissionsStayOk` | services/coven/extractor.go:1015-1025 | a pass that reads and then submits untried cliques submits only emitted ones |
| `Consolidation.ExhaustedAfter` | services/coven/extractor.go:1015-1025 | a pass that is not cancelled leaves no clique among its rows unsubmitted |
| `Consolidation.MaxFactId` | services/coven/extractor.go:927-935 | the largest of the IDs and the previous maximum |
| `Consolidation.RunPass` | services/coven/extractor.go:1005-1038 | one pass submits only cliques the finder emits among the facts it read, pairs at least 0.75 similar with one above a positive watermark, no ID set again, and unless cancelled every emitted clique; it bounds every ID read and without a failure shrinks the store by its count |
| `Consolidation.RunPasses` | services/coven/extractor.go:1005-1038 | over all passes every submission is an emitted clique of the read before it, no ID set is submitted twice, and without error every clique among the facts of the last read was submitted |
| `Consolidation.ConsolidateFactClusters` | services/coven/extractor.go:983-1046 | over all failures, cancellations and replies: every submitted set is a clique emitted among the facts of the last read, a pair at least 0.75 similar with one ID above a positive watermark, and none is submitted twice; every stored replacement is a trimmed non-blank text of the reply to its submission, in reply order; deletions follow an insertion for the same clique; initial and inserted facts outside submitted cliques stay; no initial fact is ever without a stored fact that stands for it; a failure-free run shrinks the store by the returned total; the watermark never decreases, moves only if nothing failed, and leaves above it only facts inserted after the last read |
| `SkillPlans.BatchRequiresReview` | services/coven/skills.go:74-81 | true exactly if some candidate had a core skill loaded |
| `SkillPlans.FindBestMatchingDiskSkill` | services/coven/skills.go:279-293 | computes the specification of the closest skill |
| `SkillPlans.PlanLoadedSkillBatches` | services/coven/skills.go:244-277 | grouping through a map in arbitrary key order gives one deterministic list of batches and of remaining candidates |
| `SkillPlans.PlanUnloadedSkillBatches` | services/coven/skills.go:295-333 | the same for candidates routed by similarity; every group has a skill to edit |
| `SkillPlans.FindCandidateCliques` | services/coven/skills.go:395-416 | cliques among the candidates long enough, or among all for the larger minimum size, with defaults filled in |
| `SkillPlans.AppendCliqueBatches` | services/coven/skills.go:356-370 | one batch for each clique, in order |
| `SkillPlans.PlanSkillConsolidation` | services/coven/skills.go:338-354 | the four planners in sequence give the specified plan |
| `SkillPlanLaws.BestMatchIsFirstClosest` | services/coven/skills.go:279-293 | the chosen skill is the first among the closest embedded ones; none is chosen only if all are at -1 or below |
| `SkillPlanLaws.LoadedMeans` | services/coven/skills.go:247-258 | a candidate belongs to a loaded skill exactly if it names one that is on disk |
| `SkillPlanLaws.RoutedMeans` | services/coven/skills.go:279-318 | a candidate is routed to the first of the closest skills, exactly if that is at least 0.72 similar |
| `SkillPlanLaws.KindsMean` | services/coven/skills.go:244-416 | what puts a candidate into each of the five kinds: loaded, routed, long from three steps on, short, and without an embedding |
| `SkillPlanLaws.EditBatchesAreGroups` | services/coven/skills.go:263-275 | each edit batch is the whole group of its target, targets differ, and every group worth an edit has a batch |
| `SkillPlanLaws.PlanIsSound` | services/coven/skills.go:244-416 | no pending candidate is in two batches or twice in one; loaded and routed edits hold only candidates of their target, CREATE batches two to five long candidates pairwise at least 0.70 similar, ALERT batches exactly five short ones; a batch asks for review exactly if some candidate had a core skill loaded, and a clique batch has the domain of its first member or discord |
| `SkillPlanLaws.SkillCandidatesArePlanned` | services/coven/skills.go:244-333 | a candidate with a known loaded skill is planned whenever its group is worth an edit, and a routed candidate always |
| `SkillPlanLaws.ClosePairsAreCovered` | services/coven/skills.go:350 | of two long leftover candidates at least 0.70 similar, one is in a CREATE batch |
| `SkillPlanLaws.CloseShortOnesRaiseAlert` | services/coven/skills.go:351 | five or more short leftover candidates pairwise at least 0.70 similar give an ALERT batch if two of them have no further close short candidate in common |
| `SkillStaging.AcceptsExactlySkillPaths` | services/coven/github.go:17 | the publisher pattern accepts a path if and only if it is the path of a validly named skill in one of the two domains |
| `SkillStaging.PathDetermines` | services/coven/skills.go:213-221 | a skill path determines its domain and its name, whatever characters the name has |
| `SkillStaging.ScanCustomSkills` | services/coven/skills.go:173-233 | a scan succeeds exactly if both domains are readable and yields one well-formed skill for each file and nothing else |
| `SkillStaging.ValidatedIsPublishable` | services/coven/skills.go:419-476 | whatever passes validation has a path the publisher accepts and no core name, and an existing name only if it is the edited target with the path of the target |
| `SkillStaging.StageCompiledSkillInMemory` | services/coven/github.go:674-692 | replaces the content of the first skill with that path or name or appends one; no skill is ever renamed |
| `SkillStaging.Compilation.HandleAlertBatch` | services/coven/github.go:694-708 | alert batches, and no others, are handled here; they are skipped when both calls succeed |
| `SkillStaging.Compilation.StageReply` | services/coven/github.go:754-793 | stages if and only if the reply validates and neither name nor path was staged before |
| `SkillStaging.Compilation.CompileSkillBatch` | services/coven/github.go:718-793 | given what the services answer, a batch is skipped, staged or left alone, with the exact condition and effect of each; names and paths of all changes stay distinct and publishable |
| `SkillStaging.PathsPass` | services/coven/github.go:342-346 | true exactly if every path matches |
| `SkillStaging.CompileAll` | services/coven/github.go:836-838 | every batch in order meets its specified fate for the given answers, and no candidate has two fates |
| `SkillStaging.ConsolidateProceduralSkills` | services/coven/github.go:797-856 | in every run each batch of the plan meets its specified fate, the changes have distinct names, distinct paths and disjoint candidates, the path check never refuses, and no candidate is both skipped and consolidated |
| `EditDistance.NextRow` | scripts/code-health/main.go:405-415 | the in-place row update with `prev` and `temp` turns row i - 1 of the distance table into row i |
| `EditDistance.EditSimilarity` | scripts/code-health/main.go:395-420 | the rolling-row program returns one minus distance over the longer length, and zero for an empty input |
| `EditDistance.PathIsNoShorter` | scripts/code-health/main.go:395-420 | no chain of single edits is shorter than the distance |
| `EditDistance.ShortestPath` | scripts/code-health/main.go:395-420 | some chain of single edits is exactly as long as the distance |
| `EditDistance.DistanceIsSymmetric` | scripts/code-health/main.go:395-420 | the distance ignores the argument order |
| `EditDistance.TriangleInequality` | scripts/code-health/main.go:395-420 | the distance obeys the triangle inequality |
| `EditDistance.ZeroIffEqual` | scripts/code-health/main.go:395-420 | the distance is zero if and only if the sequences are equal |
| `EditDistance.DistanceAtMostLonger` | scripts/code-health/main.go:395-420 | the distance is at most the longer length |
| `EditDistance.SimilarityLaws` | scripts/code-health/main.go:395-420 | the similarity is in [0, 1], symmetric, and 1 if and only if the inputs are equal and not empty |
| `EditDistance.SimilarityMeasuresDistance` | scripts/code-health/main.go:395-420 | one minus the similarity, times the longer length, is the distance |
| `CloneTokens.BuildScopedCloneTokens` | scripts/code-health/main.go:564-590 | the stack-driven walk prints the outline of the body: its words inside nested scopes |
| `CloneTokens.BuildCloneTokens` | scripts/code-health/main.go:552-562 | the plain walk gives the same outline without scopes |
| `CloneTokens.OwnAreWords` | scripts/code-health/main.go:516-550 | no word a node contributes reads like a brace |
| `CloneTokens.OwnTellsKindsApart` | scripts/code-health/main.go:516-550 | two nodes with the same words are of the same kind and name, apart from a plain call whose name starts with a dot |
| `CloneTokens.RunNode` | scripts/code-health/main.go:569-588 | walking any node leaves the stack as it was and appends exactly the printed outline of the node |
| `CloneTokens.ParseOfPrint` | scripts/code-health/main.go:564-590 | reading printed scopes back gives the very nesting |
| `CloneTokens.ScopedTokensAreFaithful` | scripts/code-health/main.go:552-590 | for every body the scoped tokens are balanced, determine the nesting, and without braces are the plain tokens |
| `Wakeups.NoLostWakeupInRuns` | services/hangar/events.go:585-606 | in every reachable interleaving with the channel made by the constructor, a non-empty pending map has a token queued, a timer armed, an enqueuer before its send, or the worker before its drain |
| `Wakeups.StepsBringQuiet` | services/hangar/events.go:651-677 | every step other than an enqueue or a cancellation brings the worker strictly closer to rest |
| `Wakeups.QuietMeansDrained` | services/hangar/events.go:692-704 | a live worker at rest has an empty pending map |
| `Wakeups.EventuallyDrained` | services/hangar/events.go:585-704 | once nobody enqueues, any run is short and ends, if at rest, with everything drained |
| `Wakeups.PendingUntilRun` | services/hangar/events.go:585-704 | what is written stays pending until a drain starts a batch with it |
| `Wakeups.EveryWriteIsRun` | services/hangar/events.go:585-704 | once a live daemon is at rest, every job ever written was drained by a later batch |
| `Wakeups.WakeupsKeptIff` | services/hangar/events.go:601-644 | in a run no wakeup is lost if and only if the channel was there from the start or the loop started while everything pending still had an enqueuer before its send |
| `Wakeups.StartBeforeEnqueue` | services/hangar/events.go:641-644 | without a channel at the start, starting the loop before anything is enqueued loses no wakeup |
| `Wakeups.AllRunsKeepWakeupsIff` | services/hangar/events.go:601-644 | all runs keep all wakeups if and only if the channel is there from the start |
| `Wakeups.LostWithoutChannel` | services/hangar/events.go:601-644 | an enqueue that is over before the loop makes the channel is lost |
| `Rollouts.Queue.constructor` | services/hangar/main.go:411 | an empty pending map |
| `Rollouts.Queue.Enqueue` | services/hangar/events.go:564-616 | the pending map stays the newest accepted request of each job, and the answer lists the matched jobs |
| `Rollouts.Queue.ExecutePending` | services/hangar/events.go:692-724 | drains the map and runs its distinct images exactly once each, those before the cancellation if there is one, with all hangar requests last |
| `Rollouts.LastForLaws` | services/hangar/events.go:589-597 | the entry of a job belongs to the last accepted request that uses it |
| `Rollouts.EntryIsNewest` | services/hangar/events.go:585-598 | every entry holds the newest request of its image |
| `Rollouts.DeduplicateByImage` | services/hangar/events.go:698-702 | deduplication gives the same batch for every order of the map |
| `Rollouts.SplitByHangar` | services/hangar/events.go:707-714 | splits the batch into hangar requests and others, none lost or duplicated |
| `Rollouts.HangarLast` | services/hangar/events.go:707-716 | the order of execution has every image of the batch once and hangar requests last |
| `Rollouts.RunIffNotDisplaced` | services/hangar/events.go:585-723 | an accepted image is run if and only if one of its jobs is not claimed by a later request |
| `Rollouts.EveryJobIsCovered` | services/hangar/events.go:585-723 | every job of every accepted request is rolled out by some request of the batch |
| `Rollouts.DisplacedExample` | services/hangar/events.go:589-597 | two images of one job: the first accepted request never runs |
| `PendingChanges.SplitChanges` | services/hangar/reconcile.go:177-185 | one event splits into its deletes and the rest, each in order |
| `PendingChanges.SplitEvents` | services/hangar/reconcile.go:169-199 | the events split into deletes and the rest, in order, with their metadata and without empty events |
| `PendingChanges.SplitKeepsAll` | services/hangar/reconcile.go:169-199 | as multisets the two parts are the whole |
| `PendingChanges.SplitChangesExactly` | services/hangar/reconcile.go:177-185 | each part holds its own kind only, with the multiplicities of the whole |
| `Reconcile.Daemon.RecordPending` | services/hangar/reconcile.go:144-157 | appends one event; recorded changes equal pending plus handed-out ones as multisets |
| `Reconcile.Daemon.DrainPending` | services/hangar/reconcile.go:159-165 | hands out everything in order and keeps that balance |
| `Reconcile.Daemon.DrainDeletes` | services/hangar/reconcile.go:169-199 | hands out exactly the deletes and keeps exactly the rest, both in order with metadata, and keeps that balance |
| `Reconcile.Daemon.StopDeletedJob` | services/hangar/reconcile.go:406-417 | tears a deleted job down unless another candidate repository defines it |
| `Reconcile.TeardownsAreExact` | services/hangar/reconcile.go:406-417 | a teardown is issued if and only if the job was deleted and no other candidate repository defines it |
| `Reconcile.Triage` | services/hangar/events.go:88-109 | ready changes, waiting jobs and deletes are exactly those of the given readiness, in order |
| `Reconcile.PlanPush` | services/hangar/events.go:76-109 | hangar comes last among the ready jobs, the ready ones are exactly the given ones, and something waits exactly if some change must wait |
| `Reconcile.PushDeletesAreGiven` | services/hangar/events.go:79-94 | sorting loses and invents no delete |
| `Reconcile.Daemon.ApplyJob` | services/hangar/reconcile.go:445-476 | the commands are those the outcomes of the single calls ask for, validate first, and success is exactly a valid job whose run or second run succeeds |
| `Reconcile.Daemon.ApplyReady` | services/hangar/events.go:122-154 | each ready job in order has its own segment of commands, all of them unless fail-on-error stops at the first failure; no teardown is issued and hangar is touched last |
| `Reconcile.Daemon.QueueOrTearDown` | services/hangar/events.go:111-120 | either every delete goes back to the queue or exactly the due teardowns are issued |
| `Reconcile.Daemon.ApplyChanges` | services/hangar/events.go:76-155 | in a push all teardowns precede all applications, every ready change has its segment of commands up to the first failure, a deferral causes no teardown and queues every delete again, and hangar is applied last |
| `Reconcile.ReadyChangesAreApplied` | services/hangar/events.go:122-154 | in a push the first ready change, and each one after successes, is validated, and run if valid |
| `Reconcile.Daemon.ApplyEvent` | services/hangar/reconcile.go:575-587 | one event is pushed with its own ready changes, commands and queued deletes |
| `Reconcile.Daemon.ApplyEvents` | services/hangar/reconcile.go:575-587 | every event in order has its own consecutive commands |
| `Reconcile.Daemon.SweepOrphans` | services/hangar/reconcile.go:531-559 | the loop issues exactly the specified sweep |
| `Reconcile.SweepIsExact` | services/hangar/reconcile.go:510-559 | a sweep stops a running job if and only if some definition could be read, none defines this job, and no pending change names it |
| `Reconcile.Daemon.ExecuteTeardowns` | services/hangar/reconcile.go:561-572 | issues the due teardowns of all drained events |
| `Reconcile.PendingTeardownsAreExact` | services/hangar/reconcile.go:561-572 | a drained queue tears a job down if and only if some delete of it is queued and no repository but that of the delete defines it |
| `Reconcile.DrainedAreExact` | services/hangar/reconcile.go:589-607 | the deletes drained from a queue give exactly the teardowns due in it |
| `Reconcile.PushTeardownsAreDue` | services/hangar/events.go:111-120 | every teardown of a push is due |
| `Reconcile.Daemon.ReconcilePending` | services/hangar/reconcile.go:575-587 | every drained event in queue order has its own consecutive commands, in which its ready changes are applied; every teardown it issues is due in the drained events; events without deletes cause no teardown and leave the queue empty |
| `Reconcile.NoChangeIsLost` | services/hangar/reconcile.go:575-587 | if no call fails, every ready change of every drained event is run |
| `Reconcile.Daemon.TearDownPending` | services/hangar/reconcile.go:603-606 | drains the deletes and issues exactly the due teardowns |
| `Reconcile.Daemon.ReconcileCycle` | services/hangar/reconcile.go:589-623 | a cycle carries out exactly the pending deletes that are due, sweeps exactly the running jobs that nobody defines and no kept change names, then applies every kept and every arrived event in order, each with its own commands; it tears down later only what is due among changes that arrive during the cycle, and if no delete arrives issues no teardown after an application and ends with an empty queue |
| `Cdp.InvKept` | mcp/kernel-mcp/cdp.go:125-369 | every step of callers, read loops, disconnects, set-up and close keeps the ownership, delivery and set-up invariant, in which only a disconnect lets a call see a closed connection |
| `Cdp.RunKeepsInv` | mcp/kernel-mcp/cdp.go:125-369 | the invariant holds in every state of every run |
| `Cdp.OwnersAreSingle` | mcp/kernel-mcp/cdp.go:152-185 | a reply channel is owned by the pending table, by one reader or disconnect handler, or by nobody |
| `Cdp.HeldChannelsHaveRoom` | mcp/kernel-mcp/cdp.go:157-183 | a send on a held reply channel never blocks |
| `Cdp.LockHolderMoves` | mcp/kernel-mcp/cdp.go:192-248 | whoever holds the state lock can take a step |
| `Cdp.RunsAreSafe` | mcp/kernel-mcp/cdp.go:125-534 | over all interleavings replies have one owner and one send, sends never block, no returned call is left pending, the lock moves, a closed connection is reported only if some reader is disconnecting or gone, and a ready client with a connection has completed its set-up on that connection |
| `CdpReplies.RunHasHistory` | mcp/kernel-mcp/cdp.go:125-369 | in every run the state of readers, buffers and calls is what the steps taken so far brought about |
| `CdpReplies.RepliesHaveTheirCause` | mcp/kernel-mcp/cdp.go:144-185 | a call that returned an answer had its own answer delivered by the reader that took it; one that returned closed was drained by a reader that had begun its disconnect |
| `CdpReplies.ReaderWaits` | mcp/kernel-mcp/cdp.go:144-185 | nobody but a reader itself moves it |
| `CdpReplies.TakenIsDelivered` | mcp/kernel-mcp/cdp.go:152-165 | after a reader takes a pending call, its next step, whatever happens in between, delivers the answer to the channel of that call |
| `CdpReplies.SomeRunServes` | mcp/kernel-mcp/cdp.go:192-369 | there is a run in which every set-up call returns its answer with success and the client becomes ready |
| `Triggers.CleanTargets` | services/haro/db.go:740-749 | the trimmed non-blank targets, each once, in order of first appearance |
| `Triggers.BuildFilter` | services/haro/db.go:738-761 | no filter exactly if source, type or every target is blank |
| `Triggers.Database.ClaimInTransaction` | services/haro/db.go:790-820 | a successful claim returns each row of that source, type and one of the targets once, by time, and removes exactly the one-shot ones; a failed one changes nothing |
| `Triggers.Database.ClaimInOneStatement` | services/haro/db.go:823-847 | the same for the single statement |
| `Triggers.Database.Check` | services/haro/db.go:764-779 | true exactly if a row has that source, that type and one of the targets |
| `Triggers.ClaimsAgree` | services/haro/db.go:790-847 | both implementations return the same multiset and leave the same table |
| `Triggers.ClaimMatchesCheck` | services/haro/db.go:764-847 | a claim is non-empty if and only if the check says so |
| `Triggers.RestoredIff` | services/haro/db.go:686-701 | re-inserting a claimed row restores it if and only if its time is set and its effort is a tier |
| `Triggers.NotRestoredExample` | services/haro/db.go:686-701 | a row without an effort comes back with the effort medium |
| `Triggers.InsertedIsRestorable` | services/haro/pure.go:54-63 | every row that was inserted through this code is restored by re-insertion |
| `TriggerDelivery.InvKept` | services/haro/server.go:516-565 | create, claim, dispatch, re-insert and cancel steps of any processes keep the delivery invariant |
| `TriggerDelivery.RunKeepsInv` | services/haro/server.go:516-565 | the invariant holds in every state of every run |
| `TriggerDelivery.OneShotsFireOnce` | services/haro/server.go:516-565 | in every run no one-shot trigger is dispatched successfully twice, and what is stored is the row as created |
| `TriggerDelivery.ReinsertRestores` | services/haro/server.go:541-552 | after a failed dispatch a successful re-insert meets no row of that ID and restores the row unchanged |
| `TriggerDelivery.CreateAndCancelAreExact` | services/haro/db.go:686-851 | creating adds exactly the given trigger with its time set and a tier for its effort, and cancelling removes exactly the named one |
| `TriggerDelivery.ClaimTakesMatching` | services/haro/server.go:516-530 | a claim hands the request exactly the rows that answer the filter, takes exactly the one-shot ones out of the table and leaves other requests alone |
| `TriggerDelivery.NoTriggerIsLost` | services/haro/server.go:516-565 | in every run a one-shot trigger is stored, held or fired and a persistent one stored, unless it was cancelled or its re-insertion failed |
| `TriggerDelivery.FiredIffDispatched` | services/haro/server.go:531-560 | the fired triggers are exactly the one-shot ones with a successful dispatch |
| `TriggerDelivery.StepsRemoveOnlyClaimed` | services/haro/server.go:516-565 | persistent and non-matching triggers are removed by cancellation only, and rows that stay are unaltered |
| `Cosine.CosineSimilarity` | services/coven/mmr.go:8-22 | the accumulating loop computes the similarity |
| `Cosine.CauchySchwarz` | services/coven/mmr.go:8-22 | the squared dot product is at most the product of the squared norms |
| `Cosine.SimilarityIsBounded` | services/coven/mmr.go:8-22 | similarity lies between -1 and 1 |
| `Cosine.SimilarityIsSymmetric` | services/coven/mmr.go:8-22 | similarity ignores the argument order |
| `Cosine.SelfSimilarityIsOne` | services/coven/mmr.go:8-22 | a vector other than zero has similarity one to itself |
| `Mmr.NormalizeCandidateScores` | services/coven/mmr.go:24-46 | scores are scaled into [0, 1] between the least and the greatest |
| `Mmr.MaxSimilarityToSelected` | services/coven/mmr.go:48-62 | the loop computes the largest similarity, at least zero |
| `Mmr.MaxSimilarityIsBounded` | services/coven/mmr.go:48-62 | the penalty lies in [0, 1] |
| `Mmr.MaxSimilarityIsLargest` | services/coven/mmr.go:48-62 | the penalty is an upper bound of zero and of all similarities to the picks, and one of them |
| `Mmr.PenaltyIsLargest` | services/coven/mmr.go:48-62 | those two facts determine the penalty |
| `Mmr.PickBest` | services/coven/mmr.go:85-99 | a round finds the earliest unpicked candidate with the largest lambda times relevance less one minus lambda times its penalty, and nobody only if everybody is picked |
| `Mmr.Select` | services/coven/mmr.go:68-114 | exactly min(limit, n) picks for a positive limit, none otherwise, each at its turn the earliest best trade-off of relevance against similarity to the picks before it |
| `Mmr.GreedyTradesOff` | services/coven/mmr.go:85-110 | every greedy pick trades relevance off against the largest similarity to the earlier picks, better than all who are left and strictly better than those before it |
| `Mmr.LessSimilarGoesFirst` | services/coven/mmr.go:94 | of two equally relevant candidates the one more similar to the picks is not taken before the other |
| `Mmr.PicksAreDistinct` | services/coven/mmr.go:68-114 | no candidate is picked twice |
| `Mmr.SmallerLimitIsPrefix` | services/coven/mmr.go:68-114 | the result for a smaller limit is a prefix of the result for a larger one |
| `Mmr.SelectionsArePrefixes` | services/coven/mmr.go:68-114 | of two calls that differ in the limit only, the smaller returns a prefix of the other |
| `Mmr.LambdaOneIsStableSort` | services/coven/mmr.go:68-114 | with lambda 1 and a score range above 1e-9 the picks are the head of a stable descending sort |
| `Amd.Controller.constructor` | services/prospera/amd.go:41-49 | starts holding with clear counters; a non-positive threshold becomes the default |
| `Amd.Controller.MarkConversationActive` | services/prospera/amd.go:66-70 | the new state is the specified one |
| `Amd.Controller.OnInboundFrame` | services/prospera/amd.go:73-113 | the new state and the action are the specified ones |
| `Amd.Controller.OnAmdWebhook` | services/prospera/amd.go:116-144 | the new state and the action are the specified ones |
| `Amd.HoldingIsNotReentered` | services/prospera/amd.go:73-144 | once left, Holding is never entered again |
| `Amd.ReleasedAtMostOnce` | services/prospera/amd.go:73-144 | in any mix of events the greeting is released at most once and never after voicemail |
| `Amd.ActiveCallsAreNotHijacked` | services/prospera/amd.go:116-144 | no webhook acts on a conversation marked active |
| `Amd.ModeIsLastAction` | services/prospera/amd.go:73-144 | the mode is the trace of the last action taken |
| `Amd.WebhookMeans` | services/prospera/amd.go:116-144 | in any history, what each answer does in terms of the actions before it: a human releases the greeting if nothing was done, a start switches to voicemail, an end speaks the message, and the vague end is ignored after a release |
| `Amd.ControllerFollowsHistory` | services/prospera/amd.go:73-113 | on increasing timestamps the counters equal the trailing runs of the whole history |
| `Amd.ReleasesExactlyWhenDue` | services/prospera/amd.go:73-113 | release happens at a frame if and only if it is the first where the history predicate holds |
| `Amd.DurationsAddUpIff` | services/prospera/amd.go:81-88 | durations add up to the clock if and only if none is longer than everything before it |
| `Amd.LongerFrameExample` | services/prospera/amd.go:81-88 | frames of 20 and 50 ms leave the clock at 50 |
| `Amd.DurationsMatchTimestamps` | services/prospera/amd.go:73-113 | under that condition durations and the timestamps they add up to give the same states |
| `Amd.ConstantFramesMatchTimestamps` | services/prospera/amd.go:73-113 | frames of constant length d behave like timestamps d, 2d, 3d, ... |
| `Like.ThreePassesAreOne` | services/coven/db.go:231-235 | three successive replacements equal a one-pass escape |
| `Like.EscapedIsLiteral` | services/coven/db.go:231-235 | an escaped query matches itself and nothing else |
| `Like.PatternMatchesIffContains` | services/coven/db.go:461-463 | the pattern matches a text if and only if the query is a substring of it |
| `Like.SearchFindsSubstrings` | services/coven/db.go:461-463 | the same after lowering both sides |
| `PgArray.FormatPgTextArray` | pkg/pgutil/pgutil.go:26-47 | the builder loop prints the list |
| `PgArray.PrintElement` | pkg/pgutil/pgutil.go:36-43 | the rune loop prints one element in quotes |
| `PgArray.ParseArrayContent` | pkg/pgutil/pgutil.go:72-112 | the byte loop with its flags runs the specified automaton |
| `PgArray.ParsePgTextArray` | pkg/pgutil/pgutil.go:116-125 | trimming, special cases and errors as specified |
| `PgArray.ParseOfPrint` | pkg/pgutil/pgutil.go:26-125 | parsing a printed list gives the elements with malformed bytes replaced |
| `PgArray.ShownIsRead` | pkg/pgutil/pgutil.go:72-125 | an array of bare and quoted elements in any mixture is read as its elements |
| `PgArray.RoundTripIff` | pkg/pgutil/pgutil.go:26-125 | the round trip is the identity if and only if every element is well-formed UTF-8 |
| `PgArray.BrokenByteExample` | pkg/pgutil/pgutil.go:26-125 | the element 0xFF does not come back |
| `Utf8.EncodeDecode` | pkg/pgutil/pgutil.go:37-42 | encoding a decoded rune gives back its bytes |
| `Utf8.RecodeIsIdentityIff` | pkg/pgutil/pgutil.go:37-42 | a rune-by-rune copy is faithful if and only if the string is well-formed |
| `ImageRef.ParsedIsCanonical` | services/hangar/pure.go:346-382 | every successful parse is in normal form |
| `ImageRef.CanonicalReparses` | services/hangar/pure.go:346-382 | a normal-form triple is what its printed reference parses to |
| `ImageRef.NormalizationIsIdempotent` | services/hangar/pure.go:297-382 | printing a successful parse and parsing again gives the same triple |
| `ImageRef.CanonicalIffParsed` | services/hangar/pure.go:297-382 | the triples some reference parses to are exactly those in normal form |
| `ImageRef.UntaggedIsLatest` | services/hangar/pure.go:324-341 | a reference without tag and digest means the tag latest |
| `ImageRef.TaggedHasItsTag` | services/hangar/pure.go:324-341 | a tag after the name is the tag, and the variable of the job files stands for latest |
| `ImageRef.BareNames` | services/hangar/pure.go:297-322 | a bare name is that of the library of the hub |
| `ImageRef.QualifiedNames` | services/hangar/pure.go:297-322 | a first segment with a dot, a colon or the word localhost is the registry, the aliases of the hub mean the hub, and any other name belongs to the hub as it is |
| `Sanitizer.Pool.RegisterSensitiveTokens` | pkg/sanitizer/sanitizer.go:111-137 | after any registrations the pool is the duplicate-free, longest-first list of trimmed tokens of length four or more |
| `Sanitizer.RedactRegistered` | pkg/sanitizer/sanitizer.go:148-153 | the loop replaces every token in turn |
| `Sanitizer.ReplaceKeepsTheRest` | pkg/sanitizer/sanitizer.go:148-153 | a replacement changes the occurrences and keeps the text between them, which has none |
| `Sanitizer.CleanInputIsKept` | pkg/sanitizer/sanitizer.go:148-153 | a text without registered tokens passes unchanged |
| `Sanitizer.SecretBecomesPlaceholder` | pkg/sanitizer/sanitizer.go:130-153 | since the pool is longest first, a registered token becomes the placeholder as a whole unless a shorter token is part of the placeholder |
| `Sanitizer.NoTokenSurvives` | pkg/sanitizer/sanitizer.go:148-153 | in any pool a bracket-free token that is no part of the placeholder word does not occur in the output |
| `Sanitizer.TokenLeaksIff` | pkg/sanitizer/sanitizer.go:148-153 | in any pool a bracket-free token leaks from some input if and only if it is part of the placeholder word |
| `Sanitizer.RedactionIsCompleteIff` | pkg/sanitizer/sanitizer.go:148-153 | in any pool some bracket-free token leaks from some input if and only if one of them is part of the placeholder word |

## Left out

- HTTP handlers, SSE, JSON, configuration, metrics, process start-up and logging: plumbing without further logic.
- Floating point: similarities, scores and thresholds are exact reals, so rounding and NaN are not modelled; `math.Sqrt` is any function that returns non-negative roots.
- Integer widths: IDs, counts and milliseconds are unbounded.
- Letter case (`strings.ToLower`, SQL `LOWER`, `strings.ToUpper`) is an arbitrary function; `SearchFindsSubstrings` asks it to map characters one by one and to keep `%`, `_` and the backslash, and the trigger laws ask it to keep the three tier names.
- Regular-expression rules of the sanitizer, the admission filters and the YAML front-matter parser; the skill path and name patterns are modelled as predicates.
- Prompt texts, commit summaries, pull-request texts and alert texts.
- Facts without an embedding: the store holds the facts that consolidation reads, and candidate facts extracted from conversations (`reconcileCandidateFact`, `applyReconcileDecision`) are not modelled.
- Database failures are all-or-nothing: a failed call changes nothing.
- The single-flight mutex and the nil checks around consolidation.
- Equal keys under `sort.Slice` keep their order here; the clique laws do not depend on it because IDs are unique.
- Registered tokens that contain a bracket: the redaction laws hold for the other tokens of the pool beside them, and nothing is claimed about these themselves.
- Vector search and rank fusion in SQL.
- Debounce durations and timer precision: an armed timer may fire at any time.
- CDP session IDs, message contents and the last navigation host; `stealthReady` without a connection is possible and nothing is claimed about it.
- The definitions on disk are one field of the reconcile daemon that may change between calls but not during one; whether a changed job is missing, waiting or ready is a function of the change within one push, and the outcomes of its `nomad` calls are an input of the push.
- The restart of the Nomad server inside a reconcile cycle; the model puts arbitrary recorded events at that point.
- An edit target is a value: a target whose content was replaced earlier in the run has a name already staged, so later edits of it are refused either way.
- Rollout of one image after it was taken from the queue, and the git synchronisation before a push.
- A function without a body, for which `buildScopedCloneTokens` returns nothing.
- `trim` in `PgArray.ParsePgTextArray` is any function that leaves a text alone that neither starts nor ends with a space.
