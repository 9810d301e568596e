/** What becomes of a manual trigger, and what the counters and the failure report of a reconcile say,
    stated on the Job history alone. */
module WorkflowReruns {
  import opened Workflow
  import opened WorkflowRuns
  import opened WorkflowResults

  // --------------------------------------------------------- one reconcile

  /** A rerun is asked for, and there is something to run. */
  predicate Pending(c: Config, s: State) {
    s.manual && c.catalog(s.hash) != []
  }

  /** One Job more than before, for the first pipeline of the current spec, and it runs. */
  predicate Rerun(c: Config, s: State, t: State)
    requires c.catalog(s.hash) != []
  {
    && |t.history| == |s.history| + 1 && t.history[..|s.history|] == s.history
    && var job := Last(t.history);
      job.labels == c.catalog(s.hash)[0] && IsRunning(job) && !job.suspend && !job.deleted
  }

  /** The condition says that no workflow is under way, so it has to be reset before a Job is created. */
  predicate MustReset(c: Config, s: State) {
    !c.skipConditions && !s.completed.False?
  }

  /** The calls a reconcile makes before it may take the label off. */
  predicate LabelCanGo(s: State, f: Faults) {
    !f.jobs && (f.counters ==> s.failed == 0 && s.succeeded == 0) && !f.objects && !f.unlabel
  }

  /** With a pending trigger every decision is to make room or to start the first pipeline. */
  lemma PendingDecides(c: Config, s: State)
    requires Inv(c, s) && Pending(c, s)
    ensures var ps, newest := c.catalog(s.hash), MostRecent(s.history);
      && NextIndex(ps, newest, true) == 0
      && Decide(ps, newest, true) == if Busy(s) then Suspend else Start(0)
  {
  }

  /** Whatever calls fail: the label goes if and only if no Job runs, the condition needs no reset and
      the calls up to there succeed.  Then the Job is there unless its creation fails, which nobody
      notices.  As long as the label stays no Job is created. */
  lemma TriggerIsTakenIff(c: Config, s: State, f: Faults)
    requires Inv(c, s) && Pending(c, s)
    ensures var t := Reconciled(c, s, f).state;
      && t.hash == s.hash
      && (!t.manual <==> !Busy(s) && !MustReset(c, s) && LabelCanGo(s, f))
      && (!t.manual ==> if f.create then t.history == s.history else Rerun(c, s, t))
      && (t.manual ==> |t.history| == |s.history|)
  {
    PendingDecides(c, s);
  }

  /** So a trigger is lost, taken without a Job, exactly when the creation is the one call that fails;
      and no error is reported then. */
  lemma TriggerIsLostIff(c: Config, s: State, f: Faults)
    requires Inv(c, s) && Pending(c, s)
    ensures var o := Reconciled(c, s, f);
      && (!o.state.manual && o.state.history == s.history <==>
            !Busy(s) && !MustReset(c, s) && LabelCanGo(s, f) && f.create)
      && (!o.state.manual ==> o.abort && !o.err)
  {
    TriggerIsTakenIff(c, s, f);
    PendingDecides(c, s);
  }

  /** For instance: after a successful workflow the lost rerun leaves the next reconcile with the
      answer "done". */
  lemma LostTriggerLooksDone(c: Config, s: State, f: Faults)
    requires ValidConfig(c) && Inv(c, s) && Pending(c, s) && WorkflowDone(c, s)
    requires !Busy(s) && !MustReset(c, s) && LabelCanGo(s, f) && f.create
    ensures var t := Reconciled(c, s, f).state;
      var o := Reconciled(c, t, NoFaults(t));
      !o.abort && !o.err && |o.state.history| == |s.history|
  {
    var t := Reconciled(c, s, f).state;
    TriggerIsLostIff(c, s, f);
    TriggerIsTakenIff(c, s, f);
    StepKeepsInv(c, s, Reconcile(f));
    assert WorkflowDone(c, t);
    AllCanGo(t.works, PipelineNames(c.catalog(t.hash)));
    DoneIff(c, t, NoFaults(t));
    StepKeepsInv(c, t, Reconcile(NoFaults(t)));
    SameLength(c, t);
  }

  lemma {:induction false} AllCanGo(works: seq<string>, names: set<string>)
    ensures CountStale(works, names) <= |works|
  {
    if works != [] {
      AllCanGo(works[1..], names);
    }
  }

  lemma SameLength(c: Config, s: State)
    requires ValidConfig(c) && Inv(c, s) && c.catalog(s.hash) != [] && !s.manual && WorkflowDone(c, s)
    ensures |Reconciled(c, s, NoFaults(s)).state.history| == |s.history|
  {
    FinishDecidedIff(c, s);
    ReconcileEffect(c, s);
    CleanupKeepsHistory(s.history, c.catalog(s.hash), c.keep, |s.history|);
  }

  // ------------------------------------------------------------ whole runs

  /** What stands between a pending trigger and its Job: a running Job, one already told to stop, the
      condition, the creation. */
  function Ahead(c: Config, s: State): nat {
    if Busy(s) then (if Last(s.history).suspend then 3 else 4)
    else if MustReset(c, s) then 2
    else 1
  }

  /** A reconcile without failures, or any progress of a Job, whether it ends well or not. */
  predicate Prompt(s: State, e: Event) {
    match e
    case Reconcile(f) => f == NoFaults(s)
    case JobProgress(_, _, _) => true
    case _ => false
  }

  ghost predicate PromptRun(c: Config, s: State, events: seq<Event>)
    decreases |events|
  {
    events == [] ||
    (Enabled(s, events[0]) && Prompt(s, events[0]) && PromptRun(c, Step(c, s, events[0]), events[1..]))
  }

  /** A reconcile that has not told the Job to stop yet, or the end of the Job. */
  predicate Helps(s: State, e: Event)
    requires Enabled(s, e)
  {
    match e
    case Reconcile(_) => !(Busy(s) && Last(s.history).suspend)
    case JobProgress(i, active, conditions) => !IsRunning(s.history[i].(active := active, conditions := conditions))
    case _ => false
  }

  ghost function Helpful(c: Config, s: State, events: seq<Event>): nat
    requires PromptRun(c, s, events)
    decreases |events|
  {
    if events == [] then 0
    else (if Helps(s, events[0]) then 1 else 0) + Helpful(c, Step(c, s, events[0]), events[1..])
  }

  /** Some step of the run takes the label and creates the Job. */
  ghost predicate Fires(c: Config, s: State, events: seq<Event>)
    requires PromptRun(c, s, events)
    decreases |events|
  {
    events != [] &&
    var t := Step(c, s, events[0]);
    || (Pending(c, s) && !t.manual && Rerun(c, s, t))
    || Fires(c, t, events[1..])
  }

  lemma ReconcileHelps(c: Config, s: State)
    requires Inv(c, s) && Pending(c, s)
    ensures var t := Reconciled(c, s, NoFaults(s)).state;
      && t.hash == s.hash
      && (if t.manual then Ahead(c, t) <= Ahead(c, s) && (!(Busy(s) && Last(s.history).suspend) ==> Ahead(c, t) < Ahead(c, s))
          else Rerun(c, s, t))
  {
    TriggerIsTakenIff(c, s, NoFaults(s));
    PendingDecides(c, s);
  }

  lemma ProgressHelps(c: Config, s: State, e: Event)
    requires Inv(c, s) && Pending(c, s) && e.JobProgress? && Enabled(s, e)
    ensures var t := Step(c, s, e);
      && t.hash == s.hash && t.manual && |t.history| == |s.history|
      && Ahead(c, t) <= Ahead(c, s) && (Helps(s, e) ==> Ahead(c, t) < Ahead(c, s))
  {
    assert e.job == |s.history| - 1;
  }

  lemma {:induction false} TriggerRun(c: Config, s: State, events: seq<Event>)
    requires ValidConfig(c) && Inv(c, s) && Pending(c, s) && PromptRun(c, s, events) && Legal(c, s, events)
    ensures Fires(c, s, events) ||
      var t := After(c, s, events);
      && Inv(c, t) && Pending(c, t) && t.hash == s.hash && |t.history| == |s.history|
      && Helpful(c, s, events) + Ahead(c, t) <= Ahead(c, s)
    decreases |events|
  {
    if events != [] {
      var t := Step(c, s, events[0]);
      StepKeepsInv(c, s, events[0]);
      if events[0].Reconcile? {
        ReconcileHelps(c, s);
        TriggerIsTakenIff(c, s, NoFaults(s));
      } else {
        ProgressHelps(c, s, events[0]);
      }
      if t.manual {
        TriggerRun(c, t, events[1..]);
      }
    }
  }

  /** From every reachable state with a pending trigger, in whatever order reconciles and Job progress
      come and however the Jobs end: four of them that help are enough for a new Job of the first
      pipeline, and until then the trigger stays, no other Job is created, and either a Job that was
      told to stop still runs or the next reconcile helps. */
  lemma TriggerIsServed(c: Config, s0: State, events: seq<Event>, more: seq<Event>)
    requires ValidConfig(c) && Initial(s0) && Legal(c, s0, events) && Pending(c, After(c, s0, events))
    requires PromptRun(c, After(c, s0, events), more) && Legal(c, After(c, s0, events), more)
    ensures var s := After(c, s0, events);
      var t := After(c, s, more);
      && (Helpful(c, s, more) >= 4 ==> Fires(c, s, more))
      && (!Fires(c, s, more) ==>
            && Pending(c, t) && |t.history| == |s.history|
            && (Helps(t, Reconcile(NoFaults(t))) || (Busy(t) && Last(t.history).suspend)))
  {
    RunKeepsInv(c, s0, events);
    TriggerRun(c, After(c, s0, events), more);
  }

  // ---------------------------------------------------------------- errors

  /** The next thing to do is to start a pipeline: none runs, and it is neither all done nor stuck. */
  predicate Starting(c: Config, s: State) {
    !Busy(s) && (s.manual || !(WorkflowDone(c, s) || Stuck(c, s)))
  }

  /** A call that fails is reported, with two exceptions: the suspension of a Job that is not the first
      pipeline's under a pending trigger, and the creation of a Job.  Whenever an error is reported no
      Job has been created and the label is as it was. */
  lemma ErrorIff(c: Config, s: State, f: Faults)
    requires ValidConfig(c) && Inv(c, s) && c.catalog(s.hash) != []
    ensures var o, ps := Reconciled(c, s, f), c.catalog(s.hash);
      && (o.err <==>
            || f.jobs
            || (f.counters && s != Recount(s, NextIndex(ps, MostRecent(s.history), s.manual)))
            || (Busy(s) && s.manual && Last(s.history).labels == ps[0] && f.suspend)
            || (Starting(c, s) && (if MustReset(c, s) then f.running else f.objects || (s.manual && f.unlabel)))
            || (Stuck(c, s) && f.failure)
            || (!s.manual && WorkflowDone(c, s) && !WorksGo(c, s, f)))
      && (o.err ==> o.state.manual == s.manual && |o.state.history| == |s.history|)
  {
    var ps, newest := c.catalog(s.hash), MostRecent(s.history);
    FinishDecidedIff(c, s);
    DecidedBy(c, s);
    ErrorByDecision(c, s, f);
  }

  lemma DecidedBy(c: Config, s: State)
    requires ValidConfig(c) && Inv(c, s) && c.catalog(s.hash) != []
    ensures var a := Decide(c.catalog(s.hash), MostRecent(s.history), s.manual);
      && (a.Start? <==> Starting(c, s))
      && (a.Report? <==> Stuck(c, s))
      && (a.Finish? <==> !s.manual && WorkflowDone(c, s))
      && (a.Wait? || a.Suspend? <==> Busy(s))
      && (a.Suspend? && Last(s.history).labels == c.catalog(s.hash)[0] ==> s.manual)
      && (Busy(s) && s.manual ==> a.Suspend?)
  {
    DecideMeans(c.catalog(s.hash), MostRecent(s.history), s.manual);
    FinishDecidedIff(c, s);
    PosOfEntry(c, s.hash, 0);
  }

  lemma ErrorByDecision(c: Config, s: State, f: Faults)
    requires c.keep >= 1 && c.catalog(s.hash) != []
    ensures var o, ps := Reconciled(c, s, f), c.catalog(s.hash);
      var a := Decide(ps, MostRecent(s.history), s.manual);
      && (o.err <==>
            || f.jobs
            || (f.counters && s != Recount(s, NextIndex(ps, MostRecent(s.history), s.manual)))
            || (a.Suspend? && f.suspend && SuspendErrs(s, ps))
            || (a.Start? && (if MustReset(c, s) then f.running else f.objects || (s.manual && f.unlabel)))
            || (a.Report? && f.failure)
            || (a.Finish? && !WorksGo(c, s, f)))
      && (o.err ==> o.state.manual == s.manual && |o.state.history| == |s.history|)
  {
    CleanupKeepsHistory(s.history, c.catalog(s.hash), c.keep, f.deletable);
  }

  // -------------------------------------------------------------- counters

  /** The last Jobs of `h` are successes of all the pipelines `ps`, in order. */
  predicate EndsWith(h: seq<Job>, ps: seq<JobLabels>) {
    |ps| <= |h| &&
    var tail := h[|h| - |ps|..];
    forall i :: 0 <= i < |ps| ==> tail[i].labels == ps[i] && Succeeded(tail[i])
  }

  /** The first `k` pipelines have succeeded, and after them at most the next one was tried. */
  predicate DoneUpTo(c: Config, s: State, k: nat)
    requires k <= |c.catalog(s.hash)|
  {
    var ps, h := c.catalog(s.hash), s.history;
    || EndsWith(h, ps[..k])
    || (k < |ps| && h != [] && !Succeeded(Last(h)) && Last(h).labels == ps[k] && EndsWith(h[..|h| - 1], ps[..k]))
  }

  /** After every error-free reconcile of a reachable state the number of succeeded pipelines is `k` if
      and only if no rerun is asked for and the last `k` Jobs, apart from an unsuccessful one of pipeline
      k, are successes of pipelines 0 to k - 1; and a failure is recorded if and only if the newest Job
      failed at the current hash and no rerun is asked for, in which case the workflow is not completed. */
  lemma CountersExact(c: Config, s0: State, events: seq<Event>, f: Faults, k: nat)
    requires ValidConfig(c) && Initial(s0) && Legal(c, s0, events)
    requires 0 < k <= |c.catalog(After(c, s0, events).hash)| && !Reconciled(c, After(c, s0, events), f).err
    ensures var s := After(c, s0, events);
      var t := Reconciled(c, s, f).state;
      && (t.succeeded == k <==> !s.manual && DoneUpTo(c, s, k))
      && (t.failed == 1 <==> Stuck(c, s))
      && (Stuck(c, s) ==> t.completed.False? && Reconciled(c, s, f).abort)
  {
    RunKeepsInv(c, s0, events);
    var s := After(c, s0, events);
    CountedAre(c, s, f);
    NextMeans(c, s, k);
  }

  lemma CountedAre(c: Config, s: State, f: Faults)
    requires ValidConfig(c) && Inv(c, s) && c.catalog(s.hash) != [] && !Reconciled(c, s, f).err
    ensures var o := Reconciled(c, s, f);
      && o.state.succeeded == NextIndex(c.catalog(s.hash), MostRecent(s.history), s.manual)
      && (o.state.failed == 1 <==> Stuck(c, s))
      && (Stuck(c, s) ==> o.state.completed.False? && o.abort)
  {
    DecideMeans(c.catalog(s.hash), MostRecent(s.history), s.manual);
  }

  lemma NextMeans(c: Config, s: State, k: nat)
    requires ValidConfig(c) && Inv(c, s) && 0 < k <= |c.catalog(s.hash)|
    ensures NextIndex(c.catalog(s.hash), MostRecent(s.history), s.manual) == k <==> !s.manual && DoneUpTo(c, s, k)
  {
    if NextIndex(c.catalog(s.hash), MostRecent(s.history), s.manual) == k {
      CountedIsDone(c, s, k);
    }
    if !s.manual && DoneUpTo(c, s, k) {
      DoneIsCounted(c, s, k);
    }
  }

  lemma DoneIsCounted(c: Config, s: State, k: nat)
    requires ValidConfig(c) && Inv(c, s) && 0 < k <= |c.catalog(s.hash)| && !s.manual && DoneUpTo(c, s, k)
    ensures NextIndex(c.catalog(s.hash), MostRecent(s.history), s.manual) == k
  {
    var ps, h := c.catalog(s.hash), s.history;
    if EndsWith(h, ps[..k]) {
      assert h[|h| - k..][k - 1] == Last(h);
      PosOfEntry(c, s.hash, k - 1);
    } else {
      PosOfEntry(c, s.hash, k);
    }
  }

  lemma CountedIsDone(c: Config, s: State, k: nat)
    requires ValidConfig(c) && Inv(c, s) && 0 < k <= |c.catalog(s.hash)|
    requires NextIndex(c.catalog(s.hash), MostRecent(s.history), s.manual) == k
    ensures !s.manual && DoneUpTo(c, s, k)
  {
    var ps, h := c.catalog(s.hash), s.history;
    var m := MatchIndex(ps, Last(h).labels);
    PosOfEntry(c, s.hash, m);
    if Succeeded(Last(h)) {
      SuccessesBehind(c, s.hash, h, k);
    } else {
      assert InPlace(c, h, |h| - 1);
      FrontOrdered(c, h);
      SuccessesBehind(c, s.hash, h[..|h| - 1], k);
    }
  }

  /** A success of pipeline k - 1 ends a row of successes. */
  lemma SuccessesBehind(c: Config, hash: string, h: seq<Job>, k: nat)
    requires Ordered(c, h) && h != [] && 0 < k <= |c.catalog(hash)|
    requires Succeeded(Last(h)) && Last(h).labels.resourceHash == hash && Pos(c, Last(h)) == k - 1
    ensures EndsWith(h, c.catalog(hash)[..k])
  {
    var ps := c.catalog(hash)[..k];
    BlockBehind(c, h, |h| - 1, k - 1);
    forall i | 0 <= i < k
      ensures h[|h| - k..][i].labels == ps[i] && Succeeded(h[|h| - k..][i])
    {
      BlockBehind(c, h, |h| - 1, k - 1 - i);
      assert h[|h| - k..][i] == h[|h| - 1 - (k - 1 - i)];
    }
  }
}
