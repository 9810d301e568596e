/** What the results of a configure reconcile mean: completion, failure, cleanup, progress. */
module WorkflowResults {
  import opened Wrappers
  import opened Workflow
  import opened WorkflowRuns

  // ------------------------------------------------------------ completion

  /** The last n Jobs ever created are successful runs of the n pipelines at the current hash. */
  predicate WorkflowDone(c: Config, s: State) {
    var ps, h := c.catalog(s.hash), s.history;
    |h| >= |ps| &&
    var tail := h[|h| - |ps|..];
    forall i :: 0 <= i < |ps| ==> tail[i].labels == ps[i] && Succeeded(tail[i])
  }

  /** From a Job at position `p` of its block the block can be read backwards. */
  lemma {:induction false} BlockBehind(c: Config, h: seq<Job>, k: nat, i: nat)
    requires Ordered(c, h) && k < |h| && i <= Pos(c, h[k])
    ensures i <= k
    ensures h[k - i].labels.resourceHash == h[k].labels.resourceHash && Pos(c, h[k - i]) == Pos(c, h[k]) - i
    ensures i > 0 ==> Succeeded(h[k - i])
  {
    if i > 0 {
      BlockBehind(c, h, k, i - 1);
      assert InPlace(c, h, k - i + 1);
    }
  }

  /** The last Job's success at the last pipeline is the whole workflow's. */
  lemma LastMeansAll(c: Config, s: State)
    requires ValidConfig(c) && Inv(c, s) && c.catalog(s.hash) != [] && s.history != []
    requires Succeeded(Last(s.history)) && Last(s.history).labels == c.catalog(s.hash)[|c.catalog(s.hash)| - 1]
    ensures WorkflowDone(c, s)
  {
    var ps, h := c.catalog(s.hash), s.history;
    var n := |ps|;
    PosOfEntry(c, s.hash, n - 1);
    assert Pos(c, Last(h)) == n - 1;
    BlockBehind(c, h, |h| - 1, n - 1);
    forall i | 0 <= i < n
      ensures h[|h| - n..][i].labels == ps[i] && Succeeded(h[|h| - n..][i])
    {
      EntryBehind(c, s.hash, h, i);
    }
  }

  lemma EntryBehind(c: Config, hash: string, h: seq<Job>, i: nat)
    requires Ordered(c, h) && i < |c.catalog(hash)| <= |h|
    requires Succeeded(Last(h)) && Last(h).labels.resourceHash == hash && Pos(c, Last(h)) == |c.catalog(hash)| - 1
    ensures var job := h[|h| - |c.catalog(hash)|..][i];
      job.labels == c.catalog(hash)[i] && Succeeded(job)
  {
    var n := |c.catalog(hash)|;
    BlockBehind(c, h, |h| - 1, n - 1 - i);
    assert h[|h| - n..][i] == h[|h| - 1 - (n - 1 - i)];
  }

  lemma LastPipelineMeansAll(c: Config, s: State)
    requires ValidConfig(c) && Inv(c, s) && c.catalog(s.hash) != [] && s.history != []
    ensures WorkflowDone(c, s) <==>
      Succeeded(Last(s.history)) && Last(s.history).labels == c.catalog(s.hash)[|c.catalog(s.hash)| - 1]
  {
    if Succeeded(Last(s.history)) && Last(s.history).labels == c.catalog(s.hash)[|c.catalog(s.hash)| - 1] {
      LastMeansAll(c, s);
    }
    if WorkflowDone(c, s) {
      var n := |c.catalog(s.hash)|;
      var tail := s.history[|s.history| - n..];
      assert tail[n - 1].labels == c.catalog(s.hash)[n - 1] && tail[n - 1] == Last(s.history);
    }
  }

  /** The Works of pipelines that no longer exist can be listed and deleted. */
  predicate WorksGo(c: Config, s: State, f: Faults) {
    !f.works && CountStale(s.works, PipelineNames(c.catalog(s.hash))) <= f.droppable
  }

  /** A reconcile answers "done" in a reachable state exactly when no manual trigger is pending
      and the whole workflow has run to success at the current hash (and no call failed that the answer
      waits for). */
  lemma CompletionIff(c: Config, s0: State, events: seq<Event>, f: Faults)
    requires ValidConfig(c) && Initial(s0) && Legal(c, s0, events)
    requires c.catalog(After(c, s0, events).hash) != []
    ensures var s := After(c, s0, events);
      var o := Reconciled(c, s, f);
      !o.abort && !o.err <==>
        && !s.manual
        && WorkflowDone(c, s)
        && !f.jobs && (f.counters ==> s == Recount(s, |c.catalog(s.hash)|))
        && WorksGo(c, s, f)
  {
    RunKeepsInv(c, s0, events);
    DoneIff(c, After(c, s0, events), f);
  }

  /** After that answer every Work left is of a current pipeline, and no current one is lost. */
  lemma DoneLeavesCurrentWorks(c: Config, s: State, f: Faults)
    requires c.catalog(s.hash) != []
    requires !Reconciled(c, s, f).abort && !Reconciled(c, s, f).err
    ensures var names, r := PipelineNames(c.catalog(s.hash)), Reconciled(c, s, f).state.works;
      CountStale(r, names) == 0 && forall name :: name in names ==> multiset(r)[name] == multiset(s.works)[name]
  {
    FinishedIff(s, c.catalog(s.hash), c.keep, c.skipConditions, f);
    DropWorksMeaning(s.works, PipelineNames(c.catalog(s.hash)), f.droppable);
  }

  /** The answer "done" of one call, in terms of what it decided. */
  lemma FinishedIff(s: State, ps: seq<JobLabels>, keep: nat, skipConditions: bool, f: Faults)
    requires ps != []
    ensures var o, names := Configure(s, ps, keep, skipConditions, f), PipelineNames(ps);
      && (!o.abort && !o.err <==>
            && Decide(ps, MostRecent(s.history), s.manual).Finish?
            && !f.jobs && (f.counters ==> s == Recount(s, NextIndex(ps, MostRecent(s.history), s.manual)))
            && !f.works && CountStale(s.works, names) <= f.droppable)
      && (!o.abort && !o.err ==> o.state.works == DropWorks(s.works, names, f.droppable))
  {
  }

  lemma DoneIff(c: Config, s: State, f: Faults)
    requires ValidConfig(c) && Inv(c, s) && c.catalog(s.hash) != []
    ensures var o := Reconciled(c, s, f);
      !o.abort && !o.err <==>
        && !s.manual && WorkflowDone(c, s)
        && !f.jobs && (f.counters ==> s == Recount(s, |c.catalog(s.hash)|)) && WorksGo(c, s, f)
  {
    var ps, newest := c.catalog(s.hash), MostRecent(s.history);
    FinishedIff(s, ps, c.keep, c.skipConditions, f);
    FinishDecidedIff(c, s);
    if Decide(ps, newest, s.manual).Finish? {
      PosOfEntry(c, s.hash, |ps| - 1);
      AfterTheLast(ps, newest, s.manual);
    }
  }

  lemma FinishDecidedIff(c: Config, s: State)
    requires ValidConfig(c) && Inv(c, s) && c.catalog(s.hash) != []
    ensures Decide(c.catalog(s.hash), MostRecent(s.history), s.manual).Finish? <==> !s.manual && WorkflowDone(c, s)
  {
    DecideMeans(c.catalog(s.hash), MostRecent(s.history), s.manual);
    if s.history == [] {
      assert !WorkflowDone(c, s);
    } else {
      LastPipelineMeansAll(c, s);
    }
  }

  lemma AfterTheLast(ps: seq<JobLabels>, newest: Option<Job>, manual: bool)
    requires Decide(ps, newest, manual).Finish? && MatchIndex(ps, ps[|ps| - 1]) == |ps| - 1
    ensures NextIndex(ps, newest, manual) == |ps|
  {
    DecideMeans(ps, newest, manual);
  }

  // --------------------------------------------------------------- cleanup

  lemma {:induction false} CountLiveSplit(a: seq<Job>, b: seq<Job>, name: string)
    ensures CountLive(a + b, name) == CountLive(a, name) + CountLive(b, name)
  {
    if b == [] {
      assert a + b == a;
    } else {
      var front := b[..|b| - 1];
      assert (a + b)[..|a + b| - 1] == a + front;
      CountLiveSplit(a, front, name);
    }
  }

  lemma {:induction false} CountLiveAgree(a: seq<Job>, b: seq<Job>, name: string)
    requires |a| == |b| && forall k :: 0 <= k < |a| ==> (IsLive(a[k], name) <==> IsLive(b[k], name))
    ensures CountLive(a, name) == CountLive(b, name)
  {
    if a != [] {
      CountLiveAgree(a[..|a| - 1], b[..|b| - 1], name);
    }
  }

  lemma CountLiveAt(h: seq<Job>, name: string, i: nat)
    requires i < |h|
    ensures CountLive(h, name) == CountLive(h[..i], name) + (if IsLive(h[i], name) then 1 else 0) + CountLive(h[i + 1..], name)
    ensures CountLive(h[..i + 1], name) == CountLive(h[..i], name) + (if IsLive(h[i], name) then 1 else 0)
  {
    assert h == h[..i + 1] + h[i + 1..];
    CountLiveSplit(h[..i + 1], h[i + 1..], name);
    assert h[..i + 1][..i] == h[..i];
  }

  /** The Job at `i` has at least `keep` newer existing Jobs of its own pipeline. */
  predicate Surplus(h: seq<Job>, keep: nat, i: nat)
    requires i < |h|
  {
    CountLive(h[i + 1..], h[i].labels.pipelineName) >= keep
  }

  predicate Names(pipelines: seq<JobLabels>, name: string) {
    exists k :: 0 <= k < |pipelines| && pipelines[k].pipelineName == name
  }

  lemma {:induction false} CleanupExact(h: seq<Job>, pipelines: seq<JobLabels>, keep: nat, deletable: nat, i: nat)
    requires i < |h| && deletable >= |h|
    requires forall j, k :: 0 <= j < k < |pipelines| ==> pipelines[j].pipelineName != pipelines[k].pipelineName
    ensures var r := Cleanup(h, pipelines, keep, deletable);
      r[i] == h[i].(deleted := h[i].deleted || (Names(pipelines, h[i].labels.pipelineName) && Surplus(h, keep, i)))
    decreases |pipelines|
  {
    if pipelines != [] {
      var name, own := pipelines[0].pipelineName, h[i].labels.pipelineName;
      var h1 := MarkExpired(h, name, keep, deletable);
      CleanupExact(h1, pipelines[1..], keep, deletable, i);
      CountLiveAt(h, name, i);
      CountLiveBound(h[..i], name);
      if own != name {
        CountLiveAgree(h[i + 1..], h1[i + 1..], own);
        assert Names(pipelines, own) <==> Names(pipelines[1..], own) by {
          if Names(pipelines, own) {
            var k :| 0 <= k < |pipelines| && pipelines[k].pipelineName == own;
            assert pipelines[1..][k - 1].pipelineName == own;
          }
          if Names(pipelines[1..], own) {
            var k :| 0 <= k < |pipelines[1..]| && pipelines[1..][k].pipelineName == own;
            assert pipelines[k + 1].pipelineName == own;
          }
        }
      } else {
        assert Names(pipelines, own);
        assert forall k :: 0 <= k < |pipelines[1..]| ==> pipelines[1..][k] == pipelines[k + 1];
        assert !Names(pipelines[1..], own);
      }
    }
  }

  lemma {:induction false} CountLiveBound(h: seq<Job>, name: string)
    ensures CountLive(h, name) <= |h|
  {
    if h != [] {
      CountLiveBound(h[..|h| - 1], name);
    }
  }

  function Min(a: nat, b: nat): nat { if a < b then a else b }

  /** Removing the surplus leaves the `keep` newest of any suffix. */
  lemma {:induction false} SurplusLeavesKeep(h: seq<Job>, r: seq<Job>, name: string, keep: nat, from: nat)
    requires from <= |h| == |r|
    requires forall i :: 0 <= i < |h| && h[i].labels.pipelineName == name ==>
      r[i] == h[i].(deleted := h[i].deleted || Surplus(h, keep, i))
    requires forall i :: 0 <= i < |h| ==> r[i].labels == h[i].labels
    ensures CountLive(r[from..], name) == Min(keep, CountLive(h[from..], name))
    decreases |h| - from
  {
    if from < |h| {
      SurplusLeavesKeep(h, r, name, keep, from + 1);
      CountLiveAt(h[from..], name, 0);
      CountLiveAt(r[from..], name, 0);
      assert h[from..][1..] == h[from + 1..] && r[from..][1..] == r[from + 1..];
    }
  }

  /** After an undisturbed cleanup every listed pipeline has exactly its min(k, keep) newest Jobs
      left; Jobs of other pipelines and the newest Job of all are untouched. */
  lemma CleanupKeepsNewest(h: seq<Job>, pipelines: seq<JobLabels>, keep: nat, deletable: nat)
    requires keep >= 1 && deletable >= |h|
    requires forall j, k :: 0 <= j < k < |pipelines| ==> pipelines[j].pipelineName != pipelines[k].pipelineName
    ensures var r := Cleanup(h, pipelines, keep, deletable);
      && SameButMarks(h, r)
      && (forall i :: 0 <= i < |h| ==>
            (r[i].deleted <==> h[i].deleted || (Names(pipelines, h[i].labels.pipelineName) && Surplus(h, keep, i))))
      && (forall k :: 0 <= k < |pipelines| ==>
            CountLive(r, pipelines[k].pipelineName) == Min(keep, CountLive(h, pipelines[k].pipelineName)))
      && (h != [] && !Last(h).deleted ==> MostRecent(r) == MostRecent(h))
  {
    var r := Cleanup(h, pipelines, keep, deletable);
    CleanupKeepsHistory(h, pipelines, keep, deletable);
    forall i | 0 <= i < |h|
      ensures r[i] == h[i].(deleted := h[i].deleted || (Names(pipelines, h[i].labels.pipelineName) && Surplus(h, keep, i)))
    {
      CleanupExact(h, pipelines, keep, deletable, i);
    }
    forall k | 0 <= k < |pipelines|
      ensures CountLive(r, pipelines[k].pipelineName) == Min(keep, CountLive(h, pipelines[k].pipelineName))
    {
      assert Names(pipelines, pipelines[k].pipelineName);
      SurplusLeavesKeep(h, r, pipelines[k].pipelineName, keep, 0);
      assert h[0..] == h && r[0..] == r;
    }
  }

  /** How many of the first `i` Jobs a cleanup of one pipeline that can delete `deletable` Jobs leaves. */
  lemma {:induction false} CleanupLeaves(h: seq<Job>, name: string, keep: nat, deletable: nat, i: nat)
    requires i <= |h|
    ensures var n, k := CountLive(h, name), CountLive(h[..i], name);
      CountLive(MarkExpired(h, name, keep, deletable)[..i], name) == k - Min(k, Min(deletable, if n > keep then n - keep else 0))
    decreases i
  {
    var r := MarkExpired(h, name, keep, deletable);
    if i > 0 {
      CleanupLeaves(h, name, keep, deletable, i - 1);
      assert h[..i][..i - 1] == h[..i - 1] && r[..i][..i - 1] == r[..i - 1];
    }
  }

  /** A cleanup of one pipeline that stops at a failing deletion has removed exactly as many Jobs as
      it could, up to the surplus. */
  lemma InterruptedCleanup(h: seq<Job>, name: string, keep: nat, deletable: nat)
    ensures var n := CountLive(h, name);
      CountLive(MarkExpired(h, name, keep, deletable), name) == n - Min(deletable, if n > keep then n - keep else 0)
  {
    CleanupLeaves(h, name, keep, deletable, |h|);
    var r := MarkExpired(h, name, keep, deletable);
    assert h[..|h|] == h && r[..|h|] == r;
  }

  /** Whatever number of Jobs to keep is configured, none included, a cleanup that gets however far
      leaves the newest Job, keeps at most that many per pipeline if it is not cut short, and keeps
      five where the configured number is missing or not positive. */
  lemma AnySettingKeepsNewest(h: seq<Job>, pipelines: seq<JobLabels>, configured: Option<int>, deletable: nat)
    requires forall j, k :: 0 <= j < k < |pipelines| ==> pipelines[j].pipelineName != pipelines[k].pipelineName
    ensures var keep := NumJobsToKeep(configured);
      var r := Cleanup(h, pipelines, keep, deletable);
      && (h != [] && !Last(h).deleted ==> MostRecent(r).Some? && MostRecent(r).value == Last(h))
      && (deletable >= |h| ==> forall k :: 0 <= k < |pipelines| ==>
            CountLive(r, pipelines[k].pipelineName) ==
              Min(if configured.Some? && configured.value >= 1 then configured.value else 5, CountLive(h, pipelines[k].pipelineName)))
  {
    var keep := NumJobsToKeep(configured);
    CleanupKeepsHistory(h, pipelines, keep, deletable);
    if deletable >= |h| {
      CleanupKeepsNewest(h, pipelines, keep, deletable);
    }
  }

  // -------------------------------------------------------------- counters

  /** After every error-free reconcile of a reachable state the two counters fit the pipeline list. */
  lemma CountersBounded(c: Config, s0: State, events: seq<Event>, f: Faults)
    requires ValidConfig(c) && Initial(s0) && Legal(c, s0, events)
    requires !Reconciled(c, After(c, s0, events), f).err
    ensures var s := After(c, s0, events);
      var s' := Reconciled(c, s, f).state;
      && 0 <= s'.succeeded <= |c.catalog(s.hash)|
      && s'.succeeded + s'.failed <= |c.catalog(s.hash)|
  {
    RunKeepsInv(c, s0, events);
    CountersFit(c, After(c, s0, events), f);
  }

  lemma CountersFit(c: Config, s: State, f: Faults)
    requires ValidConfig(c) && Inv(c, s) && !Reconciled(c, s, f).err
    ensures var s' := Reconciled(c, s, f).state;
      && 0 <= s'.succeeded <= |c.catalog(s.hash)|
      && s'.succeeded + s'.failed <= |c.catalog(s.hash)|
  {
    DecideMeans(c.catalog(s.hash), MostRecent(s.history), s.manual);
  }

  // ---------------------------------------------------- failure absorption

  /** The newest Job failed or was suspended at the current hash, and nobody asked for a rerun. */
  predicate Stuck(c: Config, s: State) {
    && !s.manual
    && s.history != []
    && !IsRunning(Last(s.history))
    && IsFailed(Last(s.history))
    && MatchIndex(c.catalog(s.hash), Last(s.history).labels) >= 0
  }

  predicate Undisturbed(events: seq<Event>) {
    forall e :: e in events ==> !e.SpecChange? && (e.SetManual? ==> !e.manual)
  }

  lemma StuckStep(c: Config, s: State, e: Event)
    requires ValidConfig(c) && Inv(c, s) && Stuck(c, s) && Enabled(s, e)
    requires !e.SpecChange? && (e.SetManual? ==> !e.manual)
    ensures Stuck(c, Step(c, s, e)) && Step(c, s, e).history == s.history
    ensures e.Reconcile? && !Reconciled(c, s, e.faults).err ==> Step(c, s, e).failed == 1
  {
    DecideMeans(c.catalog(s.hash), MostRecent(s.history), s.manual);
  }

  /** Until the spec changes or a manual trigger arrives, no Job is ever created after a failure. */
  lemma {:induction false} FailureAbsorbs(c: Config, s: State, events: seq<Event>)
    requires ValidConfig(c) && Inv(c, s) && Stuck(c, s) && Legal(c, s, events) && Undisturbed(events)
    ensures Stuck(c, After(c, s, events)) && After(c, s, events).history == s.history
    decreases |events|
  {
    if events != [] {
      assert events[0] in events;
      assert forall e :: e in events[1..] ==> e in events;
      StuckStep(c, s, events[0]);
      StepKeepsInv(c, s, events[0]);
      FailureAbsorbs(c, Step(c, s, events[0]), events[1..]);
    }
  }

  // -------------------------------------------------------------- progress

  function NoFaults(s: State): Faults {
    Faults(false, false, false, false, false, false, false, false, false, |s.history|, |s.works|)
  }

  /** Nothing stands in the way of the workflow at the current hash. */
  predicate Open(c: Config, s: State) {
    && !s.manual
    && (s.history != [] && IsOwn(c, s, Last(s.history)) ==>
          Succeeded(Last(s.history)) || (IsRunning(Last(s.history)) && !Last(s.history).suspend))
  }

  /** The Job is one of the current spec's. */
  predicate IsOwn(c: Config, s: State, job: Job) {
    MatchIndex(c.catalog(s.hash), job.labels) >= 0
  }

  predicate Busy(s: State) {
    s.history != [] && IsRunning(Last(s.history))
  }

  /** What stands between this state and the next Job of the current spec. */
  function Phase(c: Config, s: State): nat {
    if Busy(s) then (if IsOwn(c, s, Last(s.history)) then 0 else if Last(s.history).suspend then 3 else 4)
    else if !c.skipConditions && !s.completed.False? then 2
    else 1
  }

  /** Four units for each pipeline that is not known to have succeeded, plus the phase. */
  function Remaining(c: Config, s: State): nat {
    var ps := c.catalog(s.hash);
    var next := NextIndex(ps, MostRecent(s.history), s.manual);
    if next == |ps| then 0 else 4 * (|ps| - next) + Phase(c, s)
  }

  /** The reconcile can only wait for a Job that already runs for it or is already told to stop. */
  predicate Waits(c: Config, s: State) {
    Busy(s) && (IsOwn(c, s, Last(s.history)) || Last(s.history).suspend)
  }

  /** A reconcile without failures, or progress of a Job that ends well unless told to stop. */
  predicate Favourable(s: State, e: Event) {
    match e
    case Reconcile(f) => f == NoFaults(s)
    case JobProgress(i, active, conditions) =>
      i < |s.history| && IsRunning(s.history[i]) &&
      var job := s.history[i].(active := active, conditions := conditions);
      IsRunning(job) || Succeeded(job) || job.suspend
    case _ => false
  }

  lemma RemainingIsDone(c: Config, s: State)
    requires ValidConfig(c) && Inv(c, s) && Open(c, s) && c.catalog(s.hash) != []
    ensures Remaining(c, s) == 0 <==> WorkflowDone(c, s)
    ensures Remaining(c, s) <= 4 * |c.catalog(s.hash)| + 4
  {
    var ps := c.catalog(s.hash);
    PosOfEntry(c, s.hash, |ps| - 1);
    if s.history != [] {
      LastPipelineMeansAll(c, s);
    }
  }

  // ------------------------------------------------------ one reconcile

  /** A start either resets the condition first or creates the Job. */
  lemma StartEffect(c: Config, s: State, i: nat)
    requires Decide(c.catalog(s.hash), MostRecent(s.history), s.manual) == Start(i) && i < |c.catalog(s.hash)| && !s.manual
    ensures var s1 := Reconciled(c, s, NoFaults(s)).state;
      && s1.hash == s.hash && !s1.manual
      && (if !c.skipConditions && !s.completed.False? then s1.history == s.history && s1.completed.False?
          else s1.history == s.history + [NewJob(c.catalog(s.hash)[i])] && s1.completed == s.completed)
  {
  }

  lemma StartLowers(c: Config, s: State, s1: State, i: nat)
    requires Inv(c, s) && Open(c, s) && i < |c.catalog(s.hash)|
    requires Decide(c.catalog(s.hash), MostRecent(s.history), s.manual) == Start(i)
    requires MatchIndex(c.catalog(s.hash), c.catalog(s.hash)[i]) == i
    requires s1.hash == s.hash && !s1.manual
    requires if !c.skipConditions && !s.completed.False? then s1.history == s.history && s1.completed.False?
      else s1.history == s.history + [NewJob(c.catalog(s.hash)[i])] && s1.completed == s.completed
    ensures Open(c, s1) && Remaining(c, s1) < Remaining(c, s) && !Busy(s)
  {
    DecideMeans(c.catalog(s.hash), MostRecent(s.history), s.manual);
  }

  /** A running Job of the current spec is left alone. */
  lemma WaitKeeps(c: Config, s: State, s1: State)
    requires Inv(c, s) && Open(c, s) && Decide(c.catalog(s.hash), MostRecent(s.history), s.manual).Wait?
    requires s1.hash == s.hash && s1.manual == s.manual && s1.history == s.history && s1.completed == s.completed
    ensures Open(c, s1) && Remaining(c, s1) == Remaining(c, s) && Waits(c, s)
  {
  }

  /** A Job of another spec is told to stop, once. */
  lemma SuspendLowers(c: Config, s: State, s1: State)
    requires Inv(c, s) && Open(c, s) && Decide(c.catalog(s.hash), MostRecent(s.history), s.manual).Suspend?
    requires s1.hash == s.hash && s1.manual == s.manual && s1.history == SuspendNewest(s.history) && s1.completed == s.completed
    ensures Open(c, s1) && Remaining(c, s1) <= Remaining(c, s)
    ensures !Waits(c, s) ==> Remaining(c, s1) < Remaining(c, s)
  {
    var a, b := Last(s.history), Last(s1.history);
    assert b == a.(suspend := true);
  }

  /** Everything has succeeded, and cleaning up does not change that. */
  lemma FinishIsDone(c: Config, s: State, s1: State)
    requires ValidConfig(c) && Inv(c, s) && Open(c, s) && c.catalog(s.hash) != []
    requires Decide(c.catalog(s.hash), MostRecent(s.history), s.manual).Finish?
    requires s1.hash == s.hash && s1.manual == s.manual
    requires s1.history == Cleanup(s.history, c.catalog(s.hash), c.keep, |s.history|)
    ensures Open(c, s1) && Remaining(c, s) == 0 && Remaining(c, s1) == 0
  {
    var ps := c.catalog(s.hash);
    DecideMeans(ps, MostRecent(s.history), s.manual);
    CleanupKeepsHistory(s.history, ps, c.keep, |s.history|);
    PosOfEntry(c, s.hash, |ps| - 1);
    var a, b := Last(s.history), Last(s1.history);
    assert b == a.(deleted := b.deleted) && MostRecent(s1.history) == Some(b);
  }

  /** The state after the reconcile, without the counters. */
  lemma ReconcileEffect(c: Config, s: State)
    requires c.catalog(s.hash) != []
    ensures var s1, a := Reconciled(c, s, NoFaults(s)).state, Decide(c.catalog(s.hash), MostRecent(s.history), s.manual);
      && s1.hash == s.hash
      && (a.Wait? || a.Suspend? || a.Finish? ==> s1.manual == s.manual && s1.completed == s.completed)
      && (a.Wait? ==> s1.history == s.history)
      && (a.Suspend? ==> s1.history == SuspendNewest(s.history))
      && (a.Finish? ==> s1.history == Cleanup(s.history, c.catalog(s.hash), c.keep, |s.history|))
  {
  }

  /** A reconcile never raises what remains, and lowers it unless it can only wait or all is done. */
  lemma ReconcileLowers(c: Config, s: State)
    requires ValidConfig(c) && Inv(c, s) && Open(c, s) && c.catalog(s.hash) != []
    ensures var s1 := Reconciled(c, s, NoFaults(s)).state;
      && s1.hash == s.hash && Open(c, s1) && Remaining(c, s1) <= Remaining(c, s)
      && (Remaining(c, s) > 0 && !Waits(c, s) ==> Remaining(c, s1) < Remaining(c, s))
  {
    var ps, newest := c.catalog(s.hash), MostRecent(s.history);
    var s1 := Reconciled(c, s, NoFaults(s)).state;
    DecideMeans(ps, newest, s.manual);
    ReconcileEffect(c, s);
    match Decide(ps, newest, s.manual)
    case Start(i) =>
      PosOfEntry(c, s.hash, i);
      StartEffect(c, s, i);
      StartLowers(c, s, s1, i);
    case Suspend => SuspendLowers(c, s, s1);
    case Wait => WaitKeeps(c, s, s1);
    case Finish => FinishIsDone(c, s, s1);
    case _ =>
  }

  // -------------------------------------------------------- one Job's progress

  /** Progress of the running Job never raises what remains, and its end lowers it. */
  lemma ProgressLowers(c: Config, s: State, e: Event)
    requires ValidConfig(c) && Inv(c, s) && Open(c, s) && c.catalog(s.hash) != []
    requires e.JobProgress? && Favourable(s, e)
    ensures var s1 := Step(c, s, e);
      && s1.hash == s.hash && Open(c, s1) && Remaining(c, s1) <= Remaining(c, s)
      && (!Busy(s1) ==> Remaining(c, s1) < Remaining(c, s))
  {
    var s1 := Step(c, s, e);
    assert e.job == |s.history| - 1;
    var a, b := Last(s.history), Last(s1.history);
    assert b == a.(active := e.active, conditions := e.conditions);
    assert MostRecent(s.history) == Some(a) && MostRecent(s1.history) == Some(b);
  }

  // ------------------------------------------------------------- whole runs

  ghost predicate FavourableRun(c: Config, s: State, events: seq<Event>)
    decreases |events|
  {
    events == [] ||
    (Enabled(s, events[0]) && Favourable(s, events[0]) && FavourableRun(c, Step(c, s, events[0]), events[1..]))
  }

  lemma {:induction false} FavourableIsLegal(c: Config, s: State, events: seq<Event>)
    requires FavourableRun(c, s, events)
    ensures Legal(c, s, events)
    decreases |events|
  {
    if events != [] {
      FavourableIsLegal(c, Step(c, s, events[0]), events[1..]);
    }
  }

  /** A reconcile that has something to do, or the end of a Job. */
  predicate Advances(c: Config, s: State, e: Event)
    requires Enabled(s, e)
  {
    match e
    case Reconcile(_) => Remaining(c, s) > 0 && !Waits(c, s)
    case JobProgress(_, _, _) => !Busy(Step(c, s, e))
    case _ => false
  }

  ghost function Advancing(c: Config, s: State, events: seq<Event>): nat
    requires Legal(c, s, events)
    decreases |events|
  {
    if events == [] then 0
    else (if Advances(c, s, events[0]) then 1 else 0) + Advancing(c, Step(c, s, events[0]), events[1..])
  }

  lemma {:induction false} RunLowers(c: Config, s: State, events: seq<Event>)
    requires ValidConfig(c) && Inv(c, s) && Open(c, s) && c.catalog(s.hash) != []
    requires FavourableRun(c, s, events) && Legal(c, s, events)
    ensures var t := After(c, s, events);
      && t.hash == s.hash && Inv(c, t) && Open(c, t)
      && Advancing(c, s, events) + Remaining(c, t) <= Remaining(c, s)
    decreases |events|
  {
    if events != [] {
      if events[0].Reconcile? {
        ReconcileLowers(c, s);
      } else {
        ProgressLowers(c, s, events[0]);
      }
      StepKeepsInv(c, s, events[0]);
      RunLowers(c, Step(c, s, events[0]), events[1..]);
    }
  }

  /** With a fixed spec, no manual trigger and succeeding Jobs, in whatever order reconciles and Job
      progress come: at most 4n + 4 of them are more than waiting before a workflow of n pipelines is
      done, it stays done, and until then either a Job runs or the next reconcile advances. */
  lemma WorkflowProgress(c: Config, s0: State, events: seq<Event>, more: seq<Event>)
    requires ValidConfig(c) && Initial(s0) && Legal(c, s0, events)
    requires Open(c, After(c, s0, events)) && c.catalog(After(c, s0, events).hash) != []
    requires FavourableRun(c, After(c, s0, events), more) && Legal(c, After(c, s0, events), more)
    ensures var s := After(c, s0, events);
      var t, n := After(c, s, more), |c.catalog(s.hash)|;
      && Advancing(c, s, more) <= 4 * n + 4
      && (Advancing(c, s, more) == 4 * n + 4 ==> WorkflowDone(c, t))
      && (WorkflowDone(c, s) ==> WorkflowDone(c, t))
      && (WorkflowDone(c, t) || Busy(t) || Advances(c, t, Reconcile(NoFaults(t))))
  {
    RunKeepsInv(c, s0, events);
    var s := After(c, s0, events);
    RunLowers(c, s, more);
    RemainingIsDone(c, s);
    RemainingIsDone(c, After(c, s, more));
  }
}
