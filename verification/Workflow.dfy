/** Jobs, pipelines and the decision procedure of the configure workflow
    (lib/workflow/reconciler.go).

    The reconciler looks at the newest Job only.  Everything proved in
    `WorkflowRuns` about the whole Job history rests on the definitions here. */
module Workflow {
  import opened Wrappers

  /** The condition types a Job can carry; `Other` stands for every type the code ignores. */
  datatype JobCondition = JobComplete | JobFailed | JobSuspended | Other

  /** The five labels that tie a Job to one pipeline of one workflow. */
  datatype JobLabels = JobLabels(
    resourceHash: string,
    workflowType: string,
    workflowAction: string,
    pipelineHash: string,
    pipelineName: string)

  /** `suspend` is spec.suspend.  `deleted` marks a Job removed by `cleanup`; it stays in
      the history so that statements about whole runs can mention it. */
  datatype Job = Job(
    labels: JobLabels,
    active: nat,
    conditions: seq<JobCondition>,
    suspend: bool,
    deleted: bool)

  predicate IsFailed(job: Job) {
    JobFailed in job.conditions || JobSuspended in job.conditions
  }

  predicate IsRunning(job: Job) {
    job.active > 0 ||
    !(JobComplete in job.conditions || JobSuspended in job.conditions || JobFailed in job.conditions)
  }

  predicate Succeeded(job: Job) {
    !IsRunning(job) && !IsFailed(job)
  }

  predicate JobIsForPipeline(pipeline: JobLabels, job: Option<Job>) {
    job.Some? && job.value.labels == pipeline
  }

  function NewJob(pipeline: JobLabels): Job {
    Job(pipeline, 0, [], false, false)
  }

  /** The newest Job that still exists.  The history is in creation order. */
  function MostRecent(history: seq<Job>): Option<Job> {
    if history == [] then None
    else if !history[|history| - 1].deleted then Some(history[|history| - 1])
    else MostRecent(history[..|history| - 1])
  }

  /** The last position of `labels` in the pipeline list, or -1. */
  function MatchIndex(pipelines: seq<JobLabels>, labels: JobLabels): (i: int)
    ensures -1 <= i < |pipelines|
    ensures i >= 0 ==> pipelines[i] == labels
    ensures forall j :: i < j < |pipelines| ==> pipelines[j] != labels
  {
    if pipelines == [] then -1
    else if pipelines[|pipelines| - 1] == labels then |pipelines| - 1
    else MatchIndex(pipelines[..|pipelines| - 1], labels)
  }

  /** How many pipelines the newest Job shows to be finished. */
  function NextIndex(pipelines: seq<JobLabels>, newest: Option<Job>, manual: bool): (i: nat)
    ensures i <= |pipelines|
  {
    if newest.None? || manual then 0
    else
      var i := MatchIndex(pipelines, newest.value.labels);
      if i >= 0 && (IsFailed(newest.value) || IsRunning(newest.value)) then i else i + 1
  }

  method NextPipelineIndex(pipelines: seq<JobLabels>, newest: Option<Job>, manual: bool) returns (index: nat)
    ensures index == NextIndex(pipelines, newest, manual)
  {
    if newest.None? || manual {
      return 0;
    }
    var i := |pipelines| - 1;
    while i >= 0
      invariant -1 <= i < |pipelines|
      invariant forall j :: i < j < |pipelines| ==> pipelines[j] != newest.value.labels
    {
      if JobIsForPipeline(pipelines[i], newest) {
        if IsFailed(newest.value) || IsRunning(newest.value) {
          return i;
        }
        break;
      }
      i := i - 1;
    }
    index := i + 1;
  }

  /** How many Jobs to keep per pipeline: a configured value below one falls back to the default. */
  function NumJobsToKeep(configured: Option<int>): (keep: nat)
    ensures keep >= 1
    ensures configured.Some? && configured.value >= 1 ==> keep == configured.value
  {
    if configured.None? || configured.value < 1 then 5 else configured.value
  }

  // ---------------------------------------------------------------- cleanup

  predicate IsLive(job: Job, name: string) {
    !job.deleted && job.labels.pipelineName == name
  }

  /** The number of existing Jobs of the pipeline `name`. */
  function CountLive(history: seq<Job>, name: string): nat {
    if history == [] then 0
    else CountLive(history[..|history| - 1], name) + (if IsLive(history[|history| - 1], name) then 1 else 0)
  }

  /** The Job at `i` is one of the oldest `|live| - keep` existing Jobs of `name`, and fewer than
      `deletable` deletions come before its own. */
  predicate Expired(history: seq<Job>, name: string, keep: nat, deletable: nat, i: nat)
    requires i < |history|
  {
    && IsLive(history[i], name)
    && CountLive(history[..i], name) + keep < CountLive(history, name)
    && CountLive(history[..i], name) < deletable
  }

  function MarkExpired(history: seq<Job>, name: string, keep: nat, deletable: nat): (r: seq<Job>)
    ensures |r| == |history|
    ensures forall i :: 0 <= i < |r| ==>
      r[i] == if Expired(history, name, keep, deletable, i) then history[i].(deleted := true) else history[i]
  {
    seq(|history|, i requires 0 <= i < |history| =>
      if Expired(history, name, keep, deletable, i) then history[i].(deleted := true) else history[i])
  }

  /** `cleanup`: one `cleanupJobs` per pipeline, in list order. */
  function Cleanup(history: seq<Job>, pipelines: seq<JobLabels>, keep: nat, deletable: nat): (r: seq<Job>)
    ensures |r| == |history|
    decreases |pipelines|
  {
    if pipelines == [] then history
    else Cleanup(MarkExpired(history, pipelines[0].pipelineName, keep, deletable), pipelines[1..], keep, deletable)
  }

  // ------------------------------------------------------------------- step

  function PipelineNames(pipelines: seq<JobLabels>): set<string> {
    set i | 0 <= i < |pipelines| :: pipelines[i].pipelineName
  }

  /** How many Works are of pipelines that no longer exist. */
  function CountStale(works: seq<string>, names: set<string>): nat {
    if works == [] then 0 else (if works[0] in names then 0 else 1) + CountStale(works[1..], names)
  }

  /** The Works left when the stale ones are deleted in list order until a deletion fails. */
  function DropWorks(works: seq<string>, names: set<string>, droppable: nat): seq<string> {
    if works == [] then []
    else if works[0] in names then [works[0]] + DropWorks(works[1..], names, droppable)
    else if droppable == 0 then works
    else DropWorks(works[1..], names, droppable - 1)
  }

  /** An undisturbed deletion leaves exactly the Works of current pipelines; a disturbed one has deleted
      as many as it could. */
  lemma {:induction false} DropWorksMeaning(works: seq<string>, names: set<string>, droppable: nat)
    ensures var r := DropWorks(works, names, droppable);
      && (CountStale(works, names) <= droppable ==> CountStale(r, names) == 0)
      && (CountStale(works, names) > droppable ==> CountStale(r, names) == CountStale(works, names) - droppable)
      && |works| - |r| == CountStale(works, names) - CountStale(r, names)
      && (forall name :: name in names ==> multiset(r)[name] == multiset(works)[name])
  {
    if works != [] {
      assert works == [works[0]] + works[1..];
      if works[0] in names {
        DropWorksMeaning(works[1..], names, droppable);
      } else if droppable > 0 {
        DropWorksMeaning(works[1..], names, droppable - 1);
      }
    }
  }

  datatype ConditionStatus = Unknown | True | False

  /** The parent object, its Jobs, and the pipeline names of its Works in list order.  A counter that
      is absent from the status reads as -1. */
  datatype State = State(
    hash: string,
    manual: bool,
    completed: ConditionStatus,
    succeeded: int,
    failed: int,
    history: seq<Job>,
    works: seq<string>)

  /** Which API calls of one reconcile fail: listing the Jobs, the status writes, suspending a Job,
      finding the old RBAC objects, removing the label, creating the Job, listing the Works; how many
      Job deletions succeed per pipeline, and how many Work deletions. */
  datatype Faults = Faults(
    jobs: bool,
    counters: bool,
    failure: bool,
    running: bool,
    suspend: bool,
    objects: bool,
    unlabel: bool,
    create: bool,
    works: bool,
    deletable: nat,
    droppable: nat)

  datatype Outcome = Outcome(state: State, abort: bool, err: bool)

  /** The newest existing Job gets spec.suspend; its status is the Job controller's business. */
  function SuspendNewest(history: seq<Job>): (r: seq<Job>)
    ensures |r| == |history|
  {
    if history == [] then []
    else
      var last := |history| - 1;
      if !history[last].deleted then history[..last] + [history[last].(suspend := true)]
      else SuspendNewest(history[..last]) + [history[last]]
  }

  function Create(s: State, pipeline: JobLabels, skipConditions: bool, f: Faults): Outcome {
    if !skipConditions && !s.completed.False? then
      if f.running then Outcome(s, false, true) else Outcome(s.(completed := False), true, false)
    else if f.objects || (s.manual && f.unlabel) then Outcome(s, false, true)
    else
      Outcome(s.(manual := false, history := if f.create then s.history else s.history + [NewJob(pipeline)]), true, false)
  }

  /** The counters as the reconcile wants them before it acts. */
  function Recount(s: State, index: nat): State {
    s.(failed := if index == 0 then 0 else s.failed, succeeded := index)
  }

  /** What a reconcile decides to do. */
  datatype Action =
    | Idle            // there is no pipeline
    | Wait            // the newest Job is the current pipeline's and still runs
    | Suspend         // the newest Job runs but must make room
    | Start(i: nat)   // create the Job of pipeline i
    | Report(i: nat)  // pipeline i failed
    | Finish          // every pipeline succeeded

  function Decide(pipelines: seq<JobLabels>, newest: Option<Job>, manual: bool): Action {
    if pipelines == [] then Idle
    else
      var next := NextIndex(pipelines, newest, manual);
      var i := if next < |pipelines| then next else |pipelines| - 1;
      if newest.Some? && IsRunning(newest.value) then
        if JobIsForPipeline(pipelines[i], newest) && !manual then Wait else Suspend
      else if !JobIsForPipeline(pipelines[i], newest) || manual then Start(i)
      else if IsFailed(newest.value) then Report(i)
      else Finish
  }

  /** Every action says something exact about the newest Job. */
  lemma DecideMeans(pipelines: seq<JobLabels>, newest: Option<Job>, manual: bool)
    ensures var a := Decide(pipelines, newest, manual);
      && (a.Start? ==>
            && a.i < |pipelines|
            && (newest.Some? ==> !IsRunning(newest.value))
            && (a.i > 0 ==> !manual && JobIsForPipeline(pipelines[a.i - 1], newest) && Succeeded(newest.value)))
      && (a.Report? <==>
            && !manual && newest.Some? && !IsRunning(newest.value) && IsFailed(newest.value)
            && MatchIndex(pipelines, newest.value.labels) >= 0)
      && (a.Report? ==> a.i == MatchIndex(pipelines, newest.value.labels))
      && (a.Finish? <==>
            && pipelines != [] && !manual && newest.Some? && Succeeded(newest.value)
            && newest.value.labels == pipelines[|pipelines| - 1])
  {
  }

  /** The write that carries out an action, unless it fails. */
  function Perform(s: State, action: Action, pipelines: seq<JobLabels>, keep: nat, skipConditions: bool, f: Faults): Outcome
    requires action.Start? ==> action.i < |pipelines|
  {
    match action
    case Idle => Outcome(s, false, false)
    case Wait => Outcome(s, true, false)
    case Suspend =>
      if f.suspend then Outcome(s, true, SuspendErrs(s, pipelines))
      else Outcome(s.(history := SuspendNewest(s.history)), true, false)
    case Start(i) => Create(s, pipelines[i], skipConditions, f)
    case Report(_) =>
      if f.failure then Outcome(s, false, true) else Outcome(s.(failed := 1, completed := False), true, false)
    case Finish =>
      Outcome(s.(history := Cleanup(s.history, pipelines, keep, f.deletable),
                 works := if f.works then s.works else DropWorks(s.works, PipelineNames(pipelines), f.droppable)),
              false, f.works || CountStale(s.works, PipelineNames(pipelines)) > f.droppable)
  }

  /** A failed suspension is returned as an error only when the Job is the first pipeline's
      (a manual trigger); for a Job of another workflow it is only logged. */
  predicate SuspendErrs(s: State, pipelines: seq<JobLabels>) {
    pipelines != [] && JobIsForPipeline(pipelines[0], MostRecent(s.history))
  }

  /** One call of ReconcileConfigure. */
  function Configure(s: State, pipelines: seq<JobLabels>, keep: nat, skipConditions: bool, f: Faults): Outcome {
    var newest := MostRecent(s.history);
    var s1 := Recount(s, NextIndex(pipelines, newest, s.manual));
    if f.jobs || (s1 != s && f.counters) then Outcome(s, false, true)
    else Perform(s1, Decide(pipelines, newest, s.manual), pipelines, keep, skipConditions, f)
  }

  // ------------------------------------------------------- the reconciler itself

  /** The parent object as the reconciler updates it, one API write at a time. */
  class Reconciler {
    const keep: nat
    const skipConditions: bool
    var hash: string
    var manual: bool
    var completed: ConditionStatus
    var succeeded: int
    var failed: int
    var history: seq<Job>
    var works: seq<string>

    constructor (s: State, keep: nat, skipConditions: bool)
      ensures Snapshot() == s && this.keep == keep && this.skipConditions == skipConditions
    {
      this.keep, this.skipConditions := keep, skipConditions;
      hash, manual, completed := s.hash, s.manual, s.completed;
      succeeded, failed, history, works := s.succeeded, s.failed, s.history, s.works;
    }

    function Snapshot(): State
      reads this
    {
      State(hash, manual, completed, succeeded, failed, history, works)
    }

    method ReconcileConfigure(pipelines: seq<JobLabels>, f: Faults) returns (abort: bool, err: bool)
      modifies this
      ensures Outcome(Snapshot(), abort, err) == Configure(old(Snapshot()), pipelines, keep, skipConditions, f)
    {
      if f.jobs {
        return false, true;
      }
      var newest := MostRecent(history);
      var index := NextPipelineIndex(pipelines, newest, manual);
      var failure := UpdateCounters(index, f);
      if failure {
        return false, true;
      }
      if pipelines == [] {
        return false, false;
      }
      abort, err := RunPipeline(pipelines, newest, if index < |pipelines| then index else |pipelines| - 1, f);
    }

    method UpdateCounters(index: nat, f: Faults) returns (err: bool)
      modifies this
      ensures var s, s1 := old(Snapshot()), Recount(old(Snapshot()), index);
        err == (s1 != s && f.counters) && Snapshot() == if err then s else s1
    {
      var resetFailed := index == 0 && failed != 0;
      if resetFailed || succeeded != index {
        if f.counters {
          return true;
        }
        succeeded := index;
        if resetFailed {
          failed := 0;
        }
      }
      return false;
    }

    method RunPipeline(pipelines: seq<JobLabels>, newest: Option<Job>, index: nat, f: Faults) returns (abort: bool, err: bool)
      requires newest == MostRecent(history) && index < |pipelines|
      requires index == var next := NextIndex(pipelines, newest, manual);
        if next < |pipelines| then next else |pipelines| - 1
      modifies this
      ensures Outcome(Snapshot(), abort, err)
           == Perform(old(Snapshot()), Decide(pipelines, newest, old(manual)), pipelines, keep, skipConditions, f)
    {
      var pipeline := pipelines[index];
      if JobIsForPipeline(pipeline, newest) {
        if IsRunning(newest.value) {
          if manual {
            if f.suspend {
              return true, true;
            }
            history := SuspendNewest(history);
          }
          return true, false;
        }
        if manual {
          abort, err := CreateConfigurePipeline(pipeline, f);
          return;
        }
        if IsFailed(newest.value) {
          if f.failure {
            return false, true;
          }
          failed, completed := 1, False;
          return true, false;
        }
        err := CleanupAll(pipelines, f);
        return false, err;
      }

      if newest.Some? && IsRunning(newest.value) {
        if !f.suspend {
          history := SuspendNewest(history);
        }
        return true, false;
      }
      abort, err := CreateConfigurePipeline(pipeline, f);
    }

    method CreateConfigurePipeline(pipeline: JobLabels, f: Faults) returns (abort: bool, err: bool)
      modifies this
      ensures Outcome(Snapshot(), abort, err) == Create(old(Snapshot()), pipeline, skipConditions, f)
    {
      if !skipConditions && !completed.False? {
        if f.running {
          return false, true;
        }
        completed := False;
        return true, false;
      }
      if f.objects {
        return false, true;
      }
      if manual {
        if f.unlabel {
          return false, true;
        }
        manual := false;
      }
      if !f.create {
        history := history + [NewJob(pipeline)];
      }
      return true, false;
    }

    method CleanupAll(pipelines: seq<JobLabels>, f: Faults) returns (err: bool)
      modifies this`history, this`works
      ensures history == Cleanup(old(history), pipelines, keep, f.deletable)
      ensures works == if f.works then old(works) else DropWorks(old(works), PipelineNames(pipelines), f.droppable)
      ensures err <==> f.works || CountStale(old(works), PipelineNames(pipelines)) > f.droppable
    {
      var names := {};
      var i := 0;
      while i < |pipelines|
        invariant 0 <= i <= |pipelines|
        invariant Cleanup(history, pipelines[i..], keep, f.deletable) == Cleanup(old(history), pipelines, keep, f.deletable)
        invariant names == PipelineNames(pipelines[..i]) && works == old(works)
      {
        CleanupJobs(pipelines[i].pipelineName, f.deletable);
        assert pipelines[i..][1..] == pipelines[i + 1..];
        assert PipelineNames(pipelines[..i + 1]) == names + {pipelines[i].pipelineName} by {
          assert forall j :: 0 <= j < i ==> pipelines[..i + 1][j] == pipelines[..i][j];
          assert pipelines[..i + 1][i] == pipelines[i];
        }
        names := names + {pipelines[i].pipelineName};
        i := i + 1;
      }
      assert pipelines[..i] == pipelines;
      if f.works {
        return true;
      }
      err := CleanupWorks(names, f.droppable);
    }

    /** Deletes the Works of pipelines that no longer exist, stopping at the first deletion that fails. */
    method CleanupWorks(names: set<string>, droppable: nat) returns (err: bool)
      modifies this`works
      ensures works == DropWorks(old(works), names, droppable)
      ensures err <==> CountStale(old(works), names) > droppable
    {
      var kept: seq<string> := [];
      var dropped := 0;
      var i := 0;
      while i < |works|
        invariant 0 <= i <= |works| && works == old(works)
        invariant dropped <= droppable
        invariant kept + DropWorks(works[i..], names, droppable - dropped) == DropWorks(works, names, droppable)
        invariant CountStale(works, names) == dropped + CountStale(works[i..], names)
      {
        assert works[i..][1..] == works[i + 1..];
        if works[i] in names {
          kept := kept + [works[i]];
        } else {
          if dropped == droppable {
            works := kept + works[i..];
            return true;
          }
          dropped := dropped + 1;
        }
        i := i + 1;
      }
      works := kept;
      return false;
    }

    /** Deletes from the oldest on, stopping silently at the first deletion that fails. */
    method CleanupJobs(name: string, deletable: nat)
      modifies this`history
      ensures history == MarkExpired(old(history), name, keep, deletable)
    {
      ghost var before := history;
      var total := CountLive(history, name);
      var i, seen := 0, 0;
      while i < |history|
        invariant 0 <= i <= |history| == |before|
        invariant seen == CountLive(before[..i], name)
        invariant forall k :: 0 <= k < i ==>
          history[k] == if Expired(before, name, keep, deletable, k) then before[k].(deleted := true) else before[k]
        invariant forall k :: i <= k < |before| ==> history[k] == before[k]
      {
        assert before[..i + 1][..i] == before[..i];
        if IsLive(history[i], name) {
          if seen + keep < total && seen < deletable {
            history := history[i := history[i].(deleted := true)];
          }
          seen := seen + 1;
        }
        i := i + 1;
      }
    }
  }
}
