# Kratix in Dafny

A verified model of the protocols at the heart of Kratix: how a workflow's Jobs are run one
pipeline at a time, how a Work becomes WorkPlacements and files in a Git or S3 state store, how
Promises, Works and WorkPlacements are taken apart again behind finalizers, and how selectors,
pipeline output and declared permissions are translated.

`dafny verify dfyconfig.toml` checks all of it. Code that changes things step by step (the workflow
reconciler, both writers, the scheduler, the WorkPlacement, Work and Promise deletions) is a class or
a method with loops, proved against a specification function or relation; the theorems are about
that specification and hold for every input, every run or every reachable state.

| file | what it is about |
|---|---|
| `Wrappers.dfy` | the `Option` type |
| `Workflow.dfy`, `WorkflowRuns.dfy`, `WorkflowResults.dfy`, `WorkflowReruns.dfy` | the configure workflow: one reconcile; all runs; completion, cleanup, failure, progress; manual triggers, counters, errors |
| `Writers.dfy`, `Paths.dfy` | the S3 and Git writers as refinements of one file-map update; the directories of nested placements |
| `Placement.dfy`, `System.dfy`, `Controllers.dfy` | one placement's files and state file; the machine of Works, placements, threads and store; the controllers as programs whose traces are runs of it |
| `Stores.dfy` | that machine's store steps as the Git writer's and as the S3 writer's |
| `Selectors.dfy`, `Conditions.dfy` | selector resolution; status conditions with two writers |
| `Scheduler.dfy`, `SchedulerResults.dfy`, `SchedulerReports.dfy`, `SchedulerController.dfy`, `SchedulerRuns.dfy` | a scheduling pass, complete or cut short; what it achieves; what it reports and whom it deletes; its loops; the pass as a run of the machine |
| `OutputTree.dfy` | splitting a pipeline's output into workload groups |
| `PromiseDeletion.dfy`, `PromiseRuns.dfy` | the Promise's finalizer chain; all its runs |
| `Rbac.dfy`, `RbacResults.dfy` | declared permissions to RBAC objects; what those grant |

## What the model takes for granted

- The API server: reads are current, one object is reconciled by one thread at a time, a new
  finalizer is refused on an object that is being deleted, an object without finalizers goes when
  deleted. Failures of individual calls are inputs (the `Faults` datatypes, `storeFails`,
  `updateFails`, events).
- Jobs of one parent have distinct creation times, a finished Job never runs again, pipeline names
  within a workflow differ, and the pipeline list is a function of the spec hash.
- Compression, YAML and the state file's JSON round-trip; MD5 group IDs differ in their first five
  characters; WorkPlacement names do not collide. An object's ETag equals the new content's exactly
  when the contents are equal.
- The random choice of a destination is a parameter (`roll`), and so is the iteration order of every
  Go map (a set walked in any order, `order`, `coreFirst`).
- The store of `System.dfy` is one map over the full paths of all buckets and repositories; the base
  paths of destinations keep their placements apart. In its run theorems one `UpdateFiles` call is
  atomic and a placement's destination does not change. What an interrupted S3 update leaves behind is treated separately, in
  `Writers.dfy` and `Placement.dfy`. The machine performs the intended update; when that is what a
  Git or an S3 store does is stated in `Writers.dfy`, `Placement.dfy` and, for runs, `Stores.dfy`.
- Reason and message texts of conditions and the two known selector sources are enumerated instead
  of being strings; nothing but equality is ever asked of them.

## Where the code does not do what one would expect

Each of these is a lemma with the exact condition, not only an example.

- S3 lists by bare prefix, so updating a directory also removes siblings whose name merely starts
  with it (`Writers.S3RefinesIff`). Two placements meet this way exactly when one of them has no
  pipeline name; a Promise's static dependencies, short ID `5058f`, can erase the files of one of
  its own pipelines (`Paths.S3HitsIff`, `Paths.StaticDependencyClash`).
- On Git a listed path that has become a directory goes with everything in it, while S3 leaves it
  alone (`Writers.GitRefinesIff`, `Writers.WritersAgreeIff`, `Writers.ListedDirectoryIsLost`). In mode
  `none` the retry of a deletion can take another placement's files this way
  (`Placement.GitDeletionIff`, `Placement.GitRetryTakesForeign`).
- With file path mode `none` the new state file is uploaded first. If a later upload fails or the
  removal of an obsolete file is refused, the retry strands it (`Placement.FlatRetryCleansIff`), and so does
  everything after that, the deletion included (`Placement.StrandedFileStays`).
- A mode-`none` placement that is deleted before it was ever written never goes away
  (`System.DeletionEndsIff`, `System.NeverWrittenIsStranded`).
- A manual trigger is lost when the creation of its Job fails: the label is gone by then, nobody looks
  at the outcome, and after a successful workflow the next reconcile answers "done"
  (`WorkflowReruns.TriggerIsLostIff`, `WorkflowReruns.LostTriggerLooksDone`).
- A placement whose write has failed is reported Ready again when the scheduler's verdict changes to
  "scheduled" in the meantime (`Conditions.ReadyAfterFailedWriteIff`,
  `Conditions.FailedWriteLooksReady`).
- The Promise's workflow-jobs finalizer leaves as soon as *either* of its two label queries is
  empty. Jobs created today carry only the current labels, so it leaves at the first attempt, with
  the Jobs still there (`PromiseRuns.JobsLeftBehindIff`,
  `PromiseRuns.CurrentJobIsLeftBehind`).
- The check that forbids sub-directories in `destination-selectors.yaml` lets `/` and `..` pass;
  each of them sends every output file once more (`OutputTree.EveryFileCounted`).
- A permission for `*` and one for the namespace `kratix-all-namespaces` produce cluster roles of
  the same name; the one walked last decides what both grant (`RbacResults.FaithfulIff`,
  `RbacResults.AllNamespacesClash`).
- On a resource Work the misplaced label is only ever added, never removed, so the label can outlast
  the mismatch while the conditions follow it (`SchedulerResults.LabelIff`,
  `SchedulerResults.LabelOutlasts`).

## Model

| member | source | states |
|---|---|---|
| `Workflow.NextPipelineIndex` | lib/workflow/reconciler.go:323-344 | the backwards search returns the number of pipelines that the newest Job proves finished |
| `Workflow.DecideMeans` | lib/workflow/reconciler.go:173-229 | what each decision says about the newest Job: a start at i > 0 needs a success of i - 1; failure and completion if and only if |
| `Workflow.Reconciler.ReconcileConfigure` | lib/workflow/reconciler.go:123-244 | one reconcile, with any API call failing, has exactly the specified new state and (abort, error) answer; what that is for every history and trigger is stated by `CompletionIff`, `TriggerIsTakenIff`, `CountersExact` and `ErrorIff` |
| `Workflow.Reconciler.UpdateCounters` | lib/workflow/reconciler.go:154-171 | the counters are written only when they differ, both or none |
| `Workflow.Reconciler.RunPipeline` | lib/workflow/reconciler.go:173-243 | wait, suspend, start, report failure or finish, as decided; finishing is an error when the old Works cannot be listed or not all be deleted |
| `Workflow.Reconciler.CreateConfigurePipeline` | lib/workflow/reconciler.go:432-458 | first the condition is reset, then the old RBAC objects are looked up, then the label goes, then the Job is created; a failed creation is not noticed |
| `Workflow.Reconciler.CleanupAll` | lib/workflow/reconciler.go:376-407 | cleans up Jobs pipeline by pipeline in list order, then the Works of pipelines that no longer exist; an error if and only if these cannot be listed or a deletion fails |
| `Workflow.Reconciler.CleanupWorks` | lib/workflow/reconciler.go:394-404 | the loop deletes the Works of pipelines that no longer exist, in list order, up to the first failing deletion |
| `Workflow.DropWorksMeaning` | lib/workflow/reconciler.go:389-407 | no Work of a current pipeline is lost, and as many of the others go as can be deleted, all of them if none fails |
| `Workflow.Reconciler.CleanupJobs` | lib/workflow/reconciler.go:409-430 | the loop deletes the oldest existing Jobs beyond the limit, up to the first failing deletion |
| `WorkflowRuns.ReconcileExtends` | lib/workflow/reconciler.go:173-243 | a reconcile leaves the Job history alone, suspends the newest, cleans up, or adds one Job that starts or continues a block |
| `WorkflowRuns.FailureCountKept` | lib/workflow/reconciler.go:154-227 | a recorded failure is the newest Job's |
| `WorkflowRuns.StepKeepsInv` | lib/workflow/reconciler.go:123-244 | every step of reconciler, Jobs, user and failing calls keeps the history ordered with at most one Job running |
| `WorkflowRuns.RunKeepsInv` | lib/workflow/reconciler.go:123-244 | so does every run |
| `WorkflowRuns.MutualExclusion` | lib/workflow/reconciler.go:195-243 | in every reachable state at most one Job runs, and it is the newest, although only the newest is ever looked at |
| `WorkflowRuns.RunStructure` | lib/workflow/reconciler.go:123-244 | every run's history splits into blocks of one hash, starting at pipeline 0, rising by one, each Job but the last successful |
| `WorkflowRuns.CreationWaits` | lib/workflow/reconciler.go:215-243 | a Job is created only while none runs, at the current hash, for pipeline 0 or right after its predecessor's success |
| `WorkflowResults.LastPipelineMeansAll` | lib/workflow/reconciler.go:323-344 | a success of the last pipeline is as good as successes of all pipelines in order |
| `WorkflowResults.CompletionIff` | lib/workflow/reconciler.go:173-229 | in every reachable state the answer "done" is given if and only if no rerun is asked for, the last n Jobs are successes of pipelines 0 to n-1 at the current hash, and neither listing Jobs, writing changed counters nor listing and deleting old Works fails |
| `WorkflowResults.DoneLeavesCurrentWorks` | lib/workflow/reconciler.go:389-407 | after that answer every Work left is of a current pipeline, and none of those is lost |
| `WorkflowResults.CleanupExact` | lib/workflow/reconciler.go:376-430 | the whole cleanup deletes exactly the surplus Jobs of the listed pipelines |
| `WorkflowResults.CleanupKeepsNewest` | lib/workflow/reconciler.go:376-430 | exactly the min(k, keep) newest Jobs per pipeline stay, and the Job that decisions rest on is never removed |
| `WorkflowResults.InterruptedCleanup` | lib/workflow/reconciler.go:409-430 | a cleanup that stops at a failing deletion has removed as many Jobs as it could, up to the surplus |
| `WorkflowResults.AnySettingKeepsNewest` | cmd/main.go:381-392 | whatever number of Jobs to keep is configured, the newest Job survives; a missing or non-positive number means five |
| `WorkflowResults.CountersBounded` | lib/workflow/reconciler.go:154-182 | after every error-free reconcile succeeded and failed together do not exceed the number of pipelines |
| `WorkflowResults.FailureAbsorbs` | lib/workflow/reconciler.go:215-227 | after a failure or suspension no run creates a Job until the spec changes or a rerun is asked for |
| `WorkflowResults.ReconcileLowers` | lib/workflow/reconciler.go:123-244 | no reconcile without failures raises 4·(pipelines left) + phase, and each one lowers it that does not just wait for a running Job |
| `WorkflowResults.ProgressLowers` | lib/workflow/reconciler.go:359-374 | no progress of a Job raises it, and the end of a Job lowers it |
| `WorkflowResults.WorkflowProgress` | lib/workflow/reconciler.go:432-499 | from every reachable unblocked state, in whatever order reconciles and Job progress come, at most 4n + 4 of them are more than waiting, after that many the n pipelines are done and stay done, and before that either a Job runs or the next reconcile advances |
| `WorkflowReruns.TriggerIsTakenIff` | lib/workflow/reconciler.go:173-243 | with a trigger pending, whatever calls fail, the label goes if and only if no Job runs, the condition needs no reset and the calls up to there succeed; then there is one Job more, of the first pipeline and running, unless its creation fails; while the label stays no Job is created |
| `WorkflowReruns.TriggerIsLostIff` | lib/workflow/reconciler.go:432-458 | the label goes without a Job if and only if, besides that, the creation fails, and no error is reported then |
| `WorkflowReruns.LostTriggerLooksDone` | lib/workflow/reconciler.go:446-457 | an instance: after a successful workflow the next reconcile answers "done" and no Job has been added |
| `WorkflowReruns.TriggerIsServed` | lib/workflow/reconciler.go:123-244 | from every reachable state with a trigger pending, in whatever order reconciles and Job progress come and however Jobs end, four of them that help are enough for the new Job of the first pipeline; until then the trigger stays and either a Job told to stop still runs or the next reconcile helps |
| `WorkflowReruns.ErrorIff` | lib/workflow/reconciler.go:123-244 | which failing calls a reconcile reports, in terms of the Job history; a reported error means that no Job was created and the label is as it was |
| `WorkflowReruns.CountersExact` | lib/workflow/reconciler.go:154-227 | after every error-free reconcile of a reachable state the success counter is k if and only if no rerun is asked for and the last k Jobs, apart from an unsuccessful one of pipeline k, are successes of pipelines 0 to k-1; the failure counter is one if and only if the newest Job failed at the current hash and no rerun is asked for, and then the workflow is marked not completed |
| `Writers.RemoveThenWrite` | lib/writers/s3.go:147-189 | removing first and removing last agree when the written paths are spared |
| `Writers.LastContentWins` | lib/writers/s3.go:156-186 | at each written path there is the content of the last workload for it |
| `Writers.S3Writer.Update` | lib/writers/s3.go:120-189 | listing, skipping equal objects, uploading and deleting the rest, with any listing, lookup, upload or removal failing, ends in the specified bucket |
| `Writers.S3Writer.WriteObjects` | lib/writers/s3.go:156-186 | uploads in order, skipping objects with equal content, until a lookup or an upload fails |
| `Writers.S3Writer.ListDoomed` | lib/writers/s3.go:126-145 | what is to be deleted: the listed prefix of a directory, or the named files that exist; fails if and only if the listing or one of the lookups does |
| `Writers.S3Writer.DeleteObjects` | lib/writers/s3.go:191-207 | deletes the remaining objects, except those the store refuses |
| `Writers.GitWriter.Update` | lib/writers/git.go:126-189 | remove-then-write commits the specified tree, or leaves the repository alone: succeeds if and only if there is nothing to do, or cloning works, no file and directory share a path, and the push works or nothing changed |
| `Writers.GitWriter.WriteFiles` | lib/writers/git.go:147-181 | writes every workload, or stops at a path that cannot be one |
| `Writers.GitWriter.DeleteExistingFiles` | lib/writers/git.go:193-220 | removes the directory, or every listed path that exists, a file or a directory with all its content |
| `Writers.S3RefinesIff` | lib/writers/s3.go:120-224 | the S3 algorithm performs the intended file-map update if and only if no sibling object shares the bare prefix |
| `Writers.GitRefinesIff` | lib/writers/git.go:126-220 | the Git algorithm performs the intended file-map update if and only if a tree can hold the result and, without a directory, no listed path is a directory with files that are neither listed nor written |
| `Writers.WritersAgreeIff` | lib/writers/git.go:126-220 | S3 and Git end with the same files if and only if a Git tree can hold them and, for a directory, no sibling object shares the prefix or, without one, no listed path is a directory with other files |
| `Writers.SiblingIsLost` | lib/writers/s3.go:209-224 | a file that merely starts with the directory's name is lost on S3 and kept on Git |
| `Writers.ListedDirectoryIsLost` | lib/writers/git.go:203-216 | an instance: a listed path that is a directory is lost on Git and kept on S3 |
| `Writers.DirectoryRetryConverges` | lib/writers/s3.go:120-189 | a retry after an interrupted directory update ends where an undisturbed attempt would have |
| `Writers.InterruptedStaysInside` | lib/writers/s3.go:147-207 | every state an S3 update can stop in differs from the start only below the prefix |
| `Paths.S3HitsIff` | internal/controller/workplacement_controller.go:445-453 | the bare prefix of one placement's directory covers another's file if and only if they share the directory or exactly one lacks a pipeline name and the names line up |
| `Paths.GitHitsIff` | internal/controller/workplacement_controller.go:445-453 | the same for Git, where whole path components have to match |
| `Paths.Layout` | internal/controller/workplacement_controller.go:445-453 | everything of a Promise's dependencies is below `dependencies/<promise>/`, everything of a request below `resources/<namespace>/<promise>/<name>/` |
| `Paths.NestedTerritories` | internal/controller/workplacement_controller.go:445-453 | the directories of two separate placements have no path in common |
| `Paths.NestedUpdateIsFramed` | internal/controller/workplacement_controller.go:445-453 | writing or deleting one nested placement, on either store, leaves every file of every separate placement as it was |
| `Paths.DependencyClash` | internal/controller/shared.go:140-142 | a short ID without a pipeline name reaches on S3 into every pipeline whose name starts with it, and never on Git |
| `Paths.StaticDependencyClash` | internal/controller/workplacement_controller.go:445-453 | static dependencies erase the files of a pipeline called `5058f-deploy` on S3 |
| `Placement.CleanupWorkloads` | internal/controller/workplacement_controller.go:431-443 | the old paths no new workload has, in order |
| `Placement.WriteEffect` | internal/controller/workplacement_controller.go:372-414 | in both modes a write ends with exactly the current workloads as own files, a covering state file, and nothing foreign touched |
| `Placement.MirrorsIff` | internal/controller/workplacement_controller.go:372-414 | having exactly the workloads means: every own file is the path of a workload, every workload has its file, and its content is that of the last workload for the path |
| `Placement.DeleteWorkloadsEffect` | internal/controller/workplacement_controller.go:226-273 | the intended file cleanup runs if and only if the placement is nested or its state file exists, removes all own files, keeps the state file and touches nothing foreign |
| `Placement.GitDeletionIff` | internal/controller/workplacement_controller.go:226-273 | on Git, in mode `none`, the cleanup removes exactly what is at or below the listed paths, which is the intended cleanup if and only if everything there is the placement's own |
| `Placement.GitWriteIff` | internal/controller/workplacement_controller.go:386-414 | on Git a mode-`none` write is the intended one if and only if a tree can hold the result and everything at or below a stale path is the placement's own |
| `Placement.ApartSuitsGit` | internal/controller/workplacement_controller.go:372-414 | both hold in every store a tree can hold when everything below a placement's path is its own |
| `Placement.GitRetryTakesForeign` | lib/writers/git.go:203-216 | an instance: after the file has gone and a directory of another placement has taken its path, the repeated cleanup takes that placement's file on Git |
| `Placement.DeleteStateEffect` | internal/controller/workplacement_controller.go:276-279 | the second phase removes the state file and nothing else |
| `Placement.EventsKeepUpToDate` | internal/controller/workplacement_controller.go:386-443 | own writes and foreign changes in any order keep own files and state file in step |
| `Placement.NoStaleFiles` | internal/controller/workplacement_controller.go:386-414 | after any sequence of writes with changing workloads the own files are exactly the last ones, and the state file lists exactly their paths |
| `Placement.FlatRetryCleansIff` | internal/controller/workplacement_controller.go:583-607 | after an S3 write stopped at an upload or by refused removals, the retry leaves no stale file if and only if the stopped write left no obsolete own file behind |
| `Placement.FlatRetryStrands` | internal/controller/workplacement_controller.go:386-414 | an instance of both: a renamed workload whose old file is still there after the retry |
| `Placement.LeftBehindIsStranded` | internal/controller/workplacement_controller.go:583-607 | every obsolete own file that a stopped write leaves behind is no longer listed by the state file |
| `Placement.StrandedFileStays` | internal/controller/workplacement_controller.go:226-273 | such a file stays, with its content, through every later sequence of own writes that do not list its path and of foreign changes, and through the file cleanup of the deletion |
| `System.StepKeepsInv` | internal/controller/workplacement_controller.go:210-333 | every step of the scheduler, the controllers, the user, who may delete a Work or a placement at any time, or a crash keeps files, finalizers, threads and Works consistent |
| `System.RunKeepsInv` | internal/controller/work_controller.go:73-86 | so does every run |
| `System.NoOrphans` | internal/controller/work_controller.go:153-176 | in every reachable state each workload file belongs to an existing placement with its cleanup finalizer, and each placement's Work exists |
| `System.StateFileIff` | internal/controller/workplacement_controller.go:386-414 | in every run the state file is in the store if and only if the last of the placement's writes and state-file removals was a write |
| `System.StrandedForever` | internal/controller/workplacement_controller.go:238-256 | no run, whatever happens in it, gets rid of a dying mode-`none` placement without a state file |
| `System.NeverWrittenIsStranded` | internal/controller/workplacement_controller.go:241-248 | there is such a run from every initial state: the Work is deleted before the first write |
| `System.DeletionEndsIff` | internal/controller/workplacement_controller.go:210-281 | in every reachable state a dying placement can still be brought to an end if and only if its files are gone, it is nested, or it was written |
| `System.DeletionIsFinal` | internal/controller/scheduler.go:333-380 | no step revokes a deletion or gives a dying placement its finalizer back |
| `System.StateFileStays` | internal/controller/workplacement_controller.go:226-281 | no step removes the state file while the file cleanup is still to come |
| `System.DyingUntilGone` | internal/controller/workplacement_controller.go:210-281 | along every run, crashes included, a deletable placement stays deletable until it is gone |
| `System.DeletionCompletes` | internal/controller/workplacement_controller.go:320-333 | from every such state at most two undisturbed reconciles remove the placement, its files and its state file, and the intended updates change nothing else |
| `Stores.RunsOnGit` | lib/writers/git.go:126-220 | in every run in which everything below a placement's path is its own, nothing lies below a state file, and writes leave a tree, each store step is exactly what the Git writer does |
| `Stores.RunsOnS3` | lib/writers/s3.go:120-224 | in every run in which nothing outside a nested placement's directory has its name as a bare prefix, each store step is exactly what the S3 writer does |
| `Stores.DeletionOnGit` | lib/writers/git.go:193-220 | so the reconciles that complete a deletion do the same on Git |
| `Stores.DeletionOnS3` | lib/writers/s3.go:191-224 | and on S3 |
| `Controllers.TraceIsLegal` | internal/controller/workplacement_controller.go:72-113 | whatever call fails, a reconcile is a legal run of the machine, so all run theorems apply to it |
| `Controllers.Cluster.ReconcileWorkPlacement` | internal/controller/workplacement_controller.go:72-113 | a reconcile ends in the state its trace of machine steps leads to |
| `Controllers.Cluster.WriteToStateStore` | internal/controller/workplacement_controller.go:335-414 | store write, then finalizers; each may fail |
| `Controllers.Cluster.DeleteWorkPlacement` | internal/controller/workplacement_controller.go:210-281 | files first, then their finalizer, then the state file, then its finalizer |
| `Controllers.Cluster.DeleteWork` | internal/controller/work_controller.go:153-176 | every placement of the Work is asked to go until one refuses; only with none left is the Work released, unless that update fails |
| `Controllers.Cluster.DeletePlacements` | internal/controller/shared.go:57-84 | marks a set of placements, all of them if none refuses |
| `Selectors.SortByLowestPriority` | internal/controller/scheduler.go:507-531 | the in-place sort is the stable one: other sources, promise-workflow, promise |
| `Selectors.SinkInto` | internal/controller/scheduler.go:507-531 | one stable insertion into the sorted part |
| `Selectors.InsertKeepsSorted` | internal/controller/scheduler.go:507-531 | stable insertion builds the grouping by source |
| `Selectors.ResolveDestinationSelectors` | internal/controller/scheduler.go:490-501 | sorts the group's own list and overwrites in that order |
| `Selectors.WriteOver` | internal/controller/scheduler.go:490-501 | the key-by-key loop is a right-biased union |
| `Selectors.ResolveMeaning` | internal/controller/scheduler.go:490-531 | each key has the value of the highest-ranked source and, within it, of the last entry |
| `Selectors.ResolveDomain` | internal/controller/scheduler.go:490-531 | a key is resolved if and only if some entry decides it, which any entry offering it implies |
| `Selectors.FirstWinsMeaning` | api/v1alpha1/promise_types.go:170-197 | squashing gives each key the value of the first entry that has it |
| `Selectors.SquashPromiseScheduling` | api/v1alpha1/promise_types.go:170-183 | the backwards loop is first-entry-wins, and nil for an empty list |
| `Selectors.GenerateLabelSelectors` | api/v1alpha1/promise_types.go:189-197 | the forwards merge is the same first-entry-wins map |
| `Selectors.BuildDefaultSelectors` | work-creator/pipeline/work_creator.go:99-155 | the selector list of the default workload group |
| `Selectors.DefaultGroupResolves` | work-creator/pipeline/work_creator.go:99-155 | the scheduler resolves it to the Promise's selectors, first entry wins, over promise-workflow, first entry wins, over the workflow's root selectors |
| `Selectors.DefaultGroupMeaning` | work-creator/pipeline/work_creator.go:99-155 | key by key: the value of the Promise's first entry for it, else of the first promise-workflow entry, else of the root selectors, and no other keys |
| `Conditions.WorkPairing` | internal/controller/work_controller.go:127-148 | after any verdicts of both writers a Work's Ready is a fixed function of its ScheduleSucceeded reason, both tell the last verdict, and Ready is true if and only if that is "all scheduled" |
| `Conditions.MisplacedNeverReady` | internal/controller/workplacement_controller.go:154-195 | in every interleaving of the two writers a placement last found misplaced says so and is never Ready |
| `Conditions.ReadyIff` | internal/controller/workplacement_controller.go:154-195 | in every interleaving a placement is Ready if and only if a change of the verdict to "scheduled", or a report of a written and not misplaced placement, has not been followed by a change to "misplaced" or a failed write |
| `Conditions.ReadyAfterFailedWriteIff` | internal/controller/scheduler.go:382-428 | after a failed write and before the next attempt it is Ready if and only if the verdict has changed since and is "scheduled" |
| `Conditions.FailedWriteLooksReady` | internal/controller/scheduler.go:382-428 | an instance: misplaced, failed to be written, matching again |
| `Scheduler.EligibleNamesMeaning` | internal/controller/scheduler.go:459-488 | a destination is eligible if and only if it is not being deleted, has all labels asked for, and, if none is asked for, is not both strict and labelled |
| `Scheduler.GroupPassIsFramed` | internal/controller/scheduler.go:189-256 | a group's pass touches only that Work's placements of that group |
| `SchedulerResults.GroupPassSettles` | internal/controller/scheduler.go:189-256 | a finished pass leaves the group settled, with the reported status |
| `SchedulerResults.SettledIsFixed` | internal/controller/scheduler.go:189-256 | a settled group is a fixed point of the pass, whatever the random choice |
| `SchedulerResults.WorkPassIsIdempotent` | internal/controller/scheduler.go:47-85 | a second pass over the same destinations changes no placement, target, label or condition and reports the same groups |
| `SchedulerResults.WorkPassIsFramed` | internal/controller/scheduler.go:47-186 | every placement not being deleted has the ID of a current group, other Works are untouched, 0 ≤ created ≤ placements |
| `SchedulerReports.DeletedIff` | internal/controller/scheduler.go:158-186 | after a finished pass a placement is being deleted if and only if it was before or it is of this Work and no group of the Work has its group's ID; none disappears, and a new one is not being deleted and has its cleanup finalizer |
| `SchedulerReports.CutsDeleteDanglingOnly` | internal/controller/scheduler.go:158-186 | a pass cut short anywhere asks no placement of a current group to go |
| `SchedulerReports.PassFinishesIff` | internal/controller/scheduler.go:189-256 | without failing calls a pass finishes if and only if the Work is a request's or no placement of a current group is being deleted without its cleanup finalizer |
| `SchedulerReports.WorkReport` | internal/controller/scheduler.go:87-156 | after a finished pass ScheduleSucceeded and Ready are true if and only if every group has a placement and every target is eligible; the reason is UnscheduledWorkloads if and only if some group has none, the mismatch if and only if all have one and some target is not eligible, and the message lists exactly those groups |
| `SchedulerReports.JoinedIsReadable` | internal/controller/scheduler.go:113-124 | the listed group IDs can be read back from the message |
| `SchedulerReports.PlacementReport` | internal/controller/scheduler.go:258-428 | after a finished pass every placement of a current group has the group's workloads and says whether its target is eligible; one that is not carries the label and, its conditions having been consistent, is not Ready |
| `SchedulerReports.AnyChoiceIsPossible` | internal/controller/scheduler.go:430-457 | every eligible destination can be the random choice for a new resource placement |
| `SchedulerResults.DependencyGroup` | internal/controller/scheduler.go:189-256 | the equation below for one group's pass |
| `SchedulerResults.DependencyEquation` | internal/controller/scheduler.go:333-380 | after a pass a dependency group sits on the eligible destinations and its previous targets, with current workloads, misplaced if and only if not eligible |
| `SchedulerResults.RunKeepsOne` | internal/controller/scheduler.go:196-219 | in every run, passes cut short by failing calls included, a resource group has at most one placement |
| `SchedulerResults.ResourceStickiness` | internal/controller/scheduler.go:430-443 | in every such run, from when a resource group has a placement until that is gone, it is the group's only one and its target is the same, whatever happens to selectors and labels |
| `SchedulerResults.RunKeepsNamed` | internal/controller/scheduler.go:333-380 | in every such run each placement is for the destination its name says |
| `SchedulerResults.LabelStep` | internal/controller/scheduler.go:258-284 | on a resource placement a step sets the misplaced label when it finds the target not eligible and its update goes through, even if the status update then fails; none clears it |
| `SchedulerResults.LabelIff` | internal/controller/scheduler.go:286-294 | in every such run a resource placement is labelled misplaced if and only if some pass since its creation found its target not eligible and got its update through |
| `SchedulerResults.LabelOutlasts` | internal/controller/scheduler.go:258-284 | an instance: the destination matches again, the conditions say scheduled, the label stays |
| `SchedulerResults.ResourceGroup` | internal/controller/scheduler.go:258-284 | a placed group is refreshed in place and reported misplaced if and only if its target is no longer eligible; an unplaced one gets one eligible target if any |
| `SchedulerController.WorkScheduler.ReconcileWork` | internal/controller/scheduler.go:47-85 | a finished pass is the specified one, with conditions and a counter that tell what the placements show (`WorkReport`); without failures it finishes unless a group is refused, and the first such group is named in the conditions; whatever fails, what was done is a cut of the pass, and other Works are untouched |
| `SchedulerController.WorkScheduler.ReconcileGroups` | internal/controller/scheduler.go:49-77 | the loop over the groups ends with the specified placements and the unscheduled and misplaced groups, or stops at a group that fails, having done a cut of the pass |
| `SchedulerController.WorkScheduler.UpdateWorkStatus` | internal/controller/scheduler.go:87-156 | counters and the verdict, Ready written only with a changed ScheduleSucceeded, all or nothing |
| `SchedulerController.WorkScheduler.ReconcileWorkloadGroup` | internal/controller/scheduler.go:189-256 | a reported status means exactly the specified pass; without failures there is one unless the API server refuses a placement; whatever fails, the group is left as some refused and some muted updates leave it |
| `SchedulerController.WorkScheduler.Place` | internal/controller/scheduler.go:221-256 | the same for the branch that goes by a map of chosen and previous targets: none, all applied, or stopped on the way |
| `SchedulerController.WorkScheduler.UpdateWorkPlacements` | internal/controller/scheduler.go:198-218 | refreshes every existing placement in any order, past failing updates, and reports an error if and only if one failed |
| `SchedulerController.WorkScheduler.ApplyTargets` | internal/controller/scheduler.go:333-380 | one placement per target, in any order, until a call fails: then exactly the targets before it are applied, the last perhaps without its status |
| `SchedulerController.WorkScheduler.CleanupDanglingWorkplacements` | internal/controller/scheduler.go:158-186 | deletes exactly the placements whose group ID no group of the Work has, or some of them when a call fails |
| `SchedulerRuns.PassIsARun` | internal/controller/scheduler.go:47-85 | every pass over a Work not being deleted, wherever failing calls cut it short, is a legal run of the machine of `System`, so its run theorems hold with the scheduler at work |
| `SchedulerRuns.CutRun` | internal/controller/scheduler.go:189-256 | so is what is done of one group, and of the dangling placements |
| `SchedulerRuns.CompletePassIsARun` | internal/controller/scheduler.go:47-85 | in particular every complete pass |
| `Scheduler.UncutWorkPass` | internal/controller/scheduler.go:47-85 | a complete pass is the cut of itself in which nothing fails |
| `OutputTree.GetWorkloadsFromDir` | work-creator/pipeline/work_creator.go:209-261 | the recursive loop is the depth-first walk, ignoring directories at the root level only |
| `OutputTree.WalkFinds` | work-creator/pipeline/work_creator.go:209-261 | the walk yields a path with a content if and only if following the path down the directories ends at a file with that content |
| `OutputTree.ParseDestinationSelectors` | work-creator/pipeline/work_creator.go:297-325 | accepted if and only if no entry is empty, no directory is repeated and each is its own base name; otherwise the error names the first of these checks that fails and its first offender |
| `OutputTree.OwnBaseIff` | work-creator/pipeline/work_creator.go:327-336 | the check is that the path equals its last element without trailing slashes |
| `OutputTree.ContainsDuplicateScheduling` | work-creator/pipeline/work_creator.go:338-350 | finds a repeated directory if and only if there is one |
| `OutputTree.BuildGroups` | work-creator/pipeline/work_creator.go:63-104 | fails if and only if an entry names a directory other than the root that cannot be read; otherwise one group per such entry and a default group unless empty |
| `OutputTree.ReadListed` | work-creator/pipeline/work_creator.go:71-78 | what the walk of one listed directory yields, `/` and `..` included |
| `OutputTree.SubtreeIsFilter` | work-creator/pipeline/work_creator.go:209-261 | the walk of one directory is the part of the whole walk below it |
| `OutputTree.IgnoredIsFilter` | work-creator/pipeline/work_creator.go:94-97 | the walk with ignored directories is the part of the whole walk outside them |
| `OutputTree.EveryFileCounted` | work-creator/pipeline/work_creator.go:63-104 | every file that can be reached by its path is in the groups once, and once more for each of `/` and `..` that an entry names |
| `OutputTree.OutputIsPartitionedIff` | work-creator/pipeline/work_creator.go:327-336 | the groups partition the output if and only if no entry names `/` or `..` or there is no file |
| `OutputTree.FileIsAtHome` | work-creator/pipeline/work_creator.go:63-104 | without these a group holds exactly the reachable files that belong to it: to the group of the top-level directory if an entry names that, to the default group otherwise |
| `OutputTree.SlashSendsTwice` | work-creator/pipeline/work_creator.go:327-336 | `/` alone, with any labels, passes every check and sends every file of every output twice |
| `PromiseDeletion.PromiseController.DeletePromise` | internal/controller/promise_controller.go:1042-1131 | whatever call fails, at most the first finalizer goes, and only under its guard; without failures the new state is exact |
| `PromiseDeletion.PromiseController.ReconcileDelete` | lib/workflow/reconciler.go:57-108 | "finished" is answered only without a delete pipeline or after its newest Job's success with no rerun asked for, and always then if nothing fails |
| `PromiseDeletion.PromiseController.CreateDeletePipeline` | lib/workflow/reconciler.go:110-121 | the label goes first, then the Job is created, and the outcome is not looked at |
| `PromiseDeletion.PromiseController.DeleteAll` | internal/controller/shared.go:57-84 | every listed object is asked to go until one refuses; "remaining" is about the list |
| `PromiseDeletion.PromiseController.DeletePromiseWorkflowJobs` | internal/controller/promise_controller.go:1133-1168 | both label queries are swept; one empty answer is enough |
| `PromiseDeletion.PromiseController.DeleteResourceRequests` | internal/controller/promise_controller.go:1198-1224 | requests are swept and their controller is kept running |
| `PromiseDeletion.PromiseController.DeleteDynamicControllerAndWorkflowResources` | internal/controller/promise_controller.go:1170-1196 | kind by kind, stopping at the first with objects left; released only when all six are empty |
| `PromiseDeletion.PromiseController.DeleteWork` | internal/controller/promise_controller.go:1249-1269 | Works are swept, released when none is left |
| `PromiseDeletion.PromiseController.DeleteCRDs` | internal/controller/promise_controller.go:1226-1247 | the finalizer goes only when the API is unreadable or the CRD is gone; without failures an existing CRD is asked to go and the finalizer stays |
| `PromiseRuns.ChainOrder` | internal/controller/promise_controller.go:1042-1131 | in every run, while a finalizer is on none of the later ones has left |
| `PromiseRuns.LeavesUnderGuard` | internal/controller/promise_controller.go:1042-1269 | a finalizer that left did so alone, with everything before it gone, in a step that started with what it waits for, written out: the newest delete Job succeeded; no Job under the current or none under the legacy labels; a readable API and no request; no RBAC object, service account or config map; no Work; no CRD unless the API is unreadable |
| `PromiseRuns.LeavesInOrder` | internal/controller/promise_controller.go:1042-1131 | two finalizers that left did so in chain order |
| `PromiseRuns.DefinitionGoesFirst` | internal/controller/promise_controller.go:1226-1247 | in every run with a readable API the last finalizer leaves only from a state without the CRD, and alone |
| `PromiseRuns.InItsTurn` | internal/controller/promise_controller.go:1042-1269 | whatever fails, an object is asked to go only by its own stage, with all earlier finalizers off |
| `PromiseRuns.NeverDisabledEarly` | internal/controller/promise_controller.go:1086-1101 | the dynamic controller is never disabled while the resource-request finalizer is on |
| `PromiseRuns.DisabledAfterRequests` | internal/controller/promise_controller.go:1097-1101 | a disabled controller means an earlier step had seen no resource request left |
| `PromiseRuns.StoppedAfterRequests` | internal/controller/promise_controller.go:1097-1101 | once the finalizers up to the requests' are off, every reconcile leaves the dynamic controller stopped |
| `PromiseRuns.ReleasedWhenAwaited` | internal/controller/promise_controller.go:1042-1269 | without failures the first finalizer leaves if and only if what it waits for, written out as above, has come |
| `PromiseRuns.WaitingPursues` | internal/controller/promise_controller.go:1042-1269 | and otherwise everything it is about is asked to go (of the owned kinds one at a time), the controller is running while requests remain, and a missing or rerun delete Job is created, after the running one was told to stop |
| `PromiseRuns.JobsLeftBehindIff` | internal/controller/promise_controller.go:1160-1165 | the workflow-jobs finalizer leaves with labelled Jobs remaining if and only if exactly one of the two queries is empty |
| `PromiseRuns.CurrentJobIsLeftBehind` | internal/controller/promise_controller.go:1133-1168 | an instance: with one Job that has today's labels and all later finalizers on, the workflow-jobs finalizer leaves and the Job stays |
| `PromiseRuns.MoveLowers` | internal/controller/promise_controller.go:1042-1269 | no reconcile without failures, no departure of deleted objects and no progress of the delete Job raises the weight of finalizers, delete pipeline, objects and controller, each one that matters lowers it, and none makes or ends a deadlock |
| `PromiseRuns.QuietMeansDone` | internal/controller/promise_controller.go:1042-1269 | when nothing that matters can happen any more, the finalizers are gone if and only if the deletion is not stuck |
| `PromiseRuns.DeletionFinishesIff` | internal/controller/promise_controller.go:1042-1269 | in whatever order these come, finitely many matter, and a run that has used them up has ended the deletion if and only if the newest delete Job was not ending without success and the API is readable while requests are to be cleaned up; no run ends it otherwise |
| `Rbac.MakeRoles` | api/v1alpha1/pipeline_factory.go:416-472 | the default Role and one for rules without a namespace; an unreadable API is an error |
| `Rbac.MakeClusterRoles` | api/v1alpha1/pipeline_factory.go:535-596 | the default cluster role and one per declared namespace, in some order |
| `Rbac.GroupByScope` | api/v1alpha1/pipeline_factory.go:558-566 | the map holds, for each declared namespace, its rules in declaration order |
| `Rbac.MakeRoleBindings` | api/v1alpha1/pipeline_factory.go:474-533 | a binding per Role and per cluster role of one namespace |
| `Rbac.MakeClusterRoleBindings` | api/v1alpha1/pipeline_factory.go:598-650 | a cluster binding for the default role and for `*` |
| `RbacResults.GrantedIs` | api/v1alpha1/pipeline_factory.go:416-650 | what RBAC evaluation of all generated objects grants, clashes of names included |
| `RbacResults.DeclaredIsGranted` | api/v1alpha1/pipeline_factory.go:416-650 | without a clash, in every iteration order, a rule is granted in a namespace if and only if it is a default there or declared for it, for `*`, or without a namespace for the pipeline's own |
| `RbacResults.RequestPermittedIff` | api/v1alpha1/pipeline_factory.go:416-650 | at the level of requests: a verb on a resource is allowed in a namespace if and only if a declared permission covers it, or it is reading or writing, not deleting, the requests of its own Promise or anything on Works in the own namespace (resource pipeline), or reading or writing, not deleting, Promises and Works (Promise pipeline) |
| `RbacResults.ClashContent` | api/v1alpha1/pipeline_factory.go:568-592 | of two clashing entries the one walked last decides what both grant |
| `RbacResults.DisagreeingClash` | api/v1alpha1/pipeline_factory.go:572-577 | if the two declare different rules, some iteration order grants a rule wrongly |
| `RbacResults.FaithfulIff` | api/v1alpha1/pipeline_factory.go:535-596 | the meaning is preserved in every iteration order if and only if the two names do not clash or declare the same rules beyond the defaults |
| `RbacResults.AllNamespacesClash` | api/v1alpha1/pipeline_factory.go:572-577 | an instance: different rules for `*` and for `kratix-all-namespaces` |

## Left out

- Kubernetes client, watches, events, logging, manager restarts: plumbing around the decisions.
- Real Git, SSH, S3, HTTP, YAML, gzip, base64 and MD5: total functions with the assumptions above. Building a writer from credentials is part of this.
- File path mode `aggregatedYAML`: all placements of a destination share one file there, so the ownership of files that the theorems are about does not exist.
- Controllers.Cluster.DeleteWorkPlacement: has no branch for a destination that is gone, where the finalizers are dropped and the files stay; the run theorems are about placements whose destination exists.
- Writers.GitWriter.WriteFiles: does not model the silent refusal of workload paths that leave the repository through `..`.
- Workflow.Reconciler.CleanupAll: the Job query lacks the workflow type, so Jobs of another workflow with an equal pipeline name are outside the model.
- The resource-request controller: its deletion is the Promise's chain without the controller and the CRD.
- Promise creation and update, requirements, Available and Reconciled conditions, webhooks, PromiseRelease, HealthRecord, state-store and Destination controllers: none of them takes part in the protocols modelled here.
- Deletion and recreation of older RBAC objects (lib/workflow/rbac.go) and the recorded version IDs: not part of this model.
- `GetWorkloadGroupScheduling`: two calls of `SquashPromiseScheduling`, which is modelled.
- WorkflowResults.CleanupKeepsNewest: is about an undisturbed cleanup; how far a failing one gets is in `InterruptedCleanup`.
- Placement.DeleteWorkloadsEffect: is about the intended update; when the Git writer performs it is stated by `GitDeletionIff`, and when the S3 writer does by `Writers.S3RefinesIff`.
- System.DeletionCompletes: likewise; `Stores.DeletionOnGit` and `Stores.DeletionOnS3` state it of the two writers.
- System.NoOrphans: takes one store update as one step; partial S3 updates are covered by `Writers.InterruptedStaysInside` and `Placement.FlatRetryCleansIff`.
- SchedulerReports.WorkReport: needs Work conditions that pair, which `Conditions.WorkPairing` shows of all written ones, and consistent placement names as the next line says.
- SchedulerResults.WorkPassIsIdempotent: needs placements to be for the destinations their names say, which `RunKeepsNamed` shows of every run; the other results on whole passes need it too.
- RbacResults.FaithfulIff: assumes that generated names differ where their stems do (they are cut and hashed), and that no permission names the namespace `kratix_all_namespaces`, which Kubernetes does not allow as a name.
- Scheduler.EligibleNamesMeaning: assumes selectors that parse as label selectors.
