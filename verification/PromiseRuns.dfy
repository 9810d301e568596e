/** What holds over every run of a Promise's deletion: the order of the chain, what each finalizer
    waited for, and exactly when the deletion ends. */
module PromiseRuns {
  import opened Wrappers
  import opened Workflow
  import opened PromiseDeletion

  type State = PromiseDeletion.State

  /** Everything else in the cluster may change objects, Jobs and the label as it likes; a restart
      forgets the dynamic controller; finalizers cannot be added to a deleting object. */
  predicate Environment(s: State, s': State) {
    s'.finalizers == s.finalizers && (s'.controller == s.controller || s'.controller.NotStarted?)
  }

  ghost predicate Run(c: Config, states: seq<State>) {
    forall i :: 0 <= i < |states| - 1 ==> Reconciles(c, states[i], states[i + 1]) || Environment(states[i], states[i + 1])
  }

  // ------------------------------------------------------------------ order

  lemma {:induction false} FinalizersShrink(c: Config, states: seq<State>, i: nat, j: nat)
    requires Run(c, states) && i <= j < |states|
    ensures states[j].finalizers <= states[i].finalizers
    decreases j - i
  {
    if i < j {
      FinalizersShrink(c, states, i, j - 1);
      assert Reconciles(c, states[j - 1], states[j - 1 + 1]) || Environment(states[j - 1], states[j - 1 + 1]);
    }
  }

  /** While a finalizer is on, none of the later ones has left. */
  lemma {:induction false} ChainOrder(c: Config, states: seq<State>, i: nat, j: nat, f: Finalizer, g: Finalizer)
    requires Run(c, states) && i <= j < |states|
    requires Position(f) < Position(g) && f in states[j].finalizers && g in states[i].finalizers
    ensures g in states[j].finalizers
    decreases j - i
  {
    if i < j {
      FinalizersShrink(c, states, j - 1, j);
      ChainOrder(c, states, i, j - 1, f, g);
      assert Reconciles(c, states[j - 1], states[j - 1 + 1]) || Environment(states[j - 1], states[j - 1 + 1]);
    }
  }

  /** What each finalizer waits for, in terms of the objects and Jobs that exist: the newest delete Job
      to have succeeded; no Job with the current labels, or none with the legacy ones; no resource
      request of a readable API; no RBAC object, service account or config map; no Work; no CRD. */
  ghost predicate Awaited(c: Config, s: State, f: Finalizer) {
    match f
    case DeleteWorkflows =>
      c.pipelines != [] ==>
        && s.jobs != [] && !s.manual
        && var newest := s.jobs[|s.jobs| - 1];
          newest.succeeded > 0 && newest.job.active == 0
          && exists done :: done in newest.job.conditions && done in {JobComplete, JobFailed, JobSuspended}
    case WorkflowJobs =>
      || (forall o :: o in s.objects ==> !(o.WorkflowJob? && o.typed))
      || (forall o :: o in s.objects ==> !(o.WorkflowJob? && o.legacy))
    case ResourceRequests => c.parsable && forall o :: o in s.objects ==> !o.Request?
    case DynamicResources => forall o :: o in s.objects ==> !o.Owned?
    case Dependencies => forall o :: o in s.objects ==> !o.PromiseWork?
    case Crd => c.parsable ==> Definition !in s.objects
  }

  lemma EmptyIs(s: State, q: Query)
    ensures IsEmpty(s, q) <==> forall o :: o in s.objects ==> !Matches(q, o)
  {
    assert forall o :: o in Matching(s.objects, q) <==> o in s.objects && Matches(q, o);
  }

  lemma NoKindIs(s: State)
    ensures (forall kind: Kind :: IsEmpty(s, OfKind(kind))) <==> forall o :: o in s.objects ==> !o.Owned?
  {
    forall kind: Kind
      ensures IsEmpty(s, OfKind(kind)) <==> forall o :: o in s.objects ==> !(o.Owned? && o.kind == kind)
    {
      EmptyIs(s, OfKind(kind));
    }
    if o :| o in s.objects && o.Owned? {
      assert !IsEmpty(s, OfKind(o.kind));
    }
  }

  /** The test made of the listed objects is exactly that. */
  lemma GuardIsAwaited(c: Config, s: State, f: Finalizer)
    ensures Guard(c, s, f) <==> Awaited(c, s, f)
  {
    match f
    case WorkflowJobs =>
      EmptyIs(s, TypedJobs);
      EmptyIs(s, LegacyJobs);
    case ResourceRequests => EmptyIs(s, AllRequests);
    case DynamicResources => NoKindIs(s);
    case Dependencies => EmptyIs(s, AllWorks);
    case _ =>
  }

  /** Step `k` takes `f` off, having seen what it waits for, and everything before it gone. */
  ghost predicate LeavesAt(c: Config, states: seq<State>, k: nat, f: Finalizer) {
    && k + 1 < |states|
    && f in states[k].finalizers
    && states[k + 1].finalizers == states[k].finalizers - {f}
    && Awaited(c, states[k], f)
    && forall e :: e in states[k].finalizers ==> Position(f) <= Position(e)
  }

  lemma {:induction false} LeavesUnderGuard(c: Config, states: seq<State>, i: nat, j: nat, f: Finalizer)
    requires Run(c, states) && i <= j < |states|
    requires f in states[i].finalizers && f !in states[j].finalizers
    ensures exists k :: i <= k < j && LeavesAt(c, states, k, f)
    decreases j - i
  {
    if f in states[j - 1].finalizers {
      assert Reconciles(c, states[j - 1], states[j - 1 + 1]) || Environment(states[j - 1], states[j - 1 + 1]);
      GuardIsAwaited(c, states[j - 1], f);
      assert LeavesAt(c, states, j - 1, f);
    } else {
      LeavesUnderGuard(c, states, i, j - 1, f);
    }
  }

  /** A completed stretch of the chain was taken apart in order, each finalizer in a step that saw
      its guarded objects gone. */
  lemma LeavesInOrder(c: Config, states: seq<State>, i: nat, j: nat, f: Finalizer, g: Finalizer)
    requires Run(c, states) && i <= j < |states| && Position(f) < Position(g)
    requires {f, g} <= states[i].finalizers && f !in states[j].finalizers && g !in states[j].finalizers
    ensures exists k, l :: i <= k < l < j && LeavesAt(c, states, k, f) && LeavesAt(c, states, l, g)
  {
    LeavesUnderGuard(c, states, i, j, f);
    LeavesUnderGuard(c, states, i, j, g);
    var k :| i <= k < j && LeavesAt(c, states, k, f);
    var l :| i <= l < j && LeavesAt(c, states, l, g);
    NotBefore(c, states, k, l, f, g);
  }

  lemma NotBefore(c: Config, states: seq<State>, k: nat, l: nat, f: Finalizer, g: Finalizer)
    requires Run(c, states) && Position(f) < Position(g) && LeavesAt(c, states, k, f) && LeavesAt(c, states, l, g)
    ensures k < l
  {
    if l <= k {
      FinalizersShrink(c, states, l, k);
      assert false;
    }
  }

  // ------------------------------------------------- the dynamic controller

  predicate Serving(s: State) {
    ResourceRequests in s.finalizers ==> !s.controller.Disabled?
  }

  /** The controller that cleans up resource requests is never disabled while their finalizer is on. */
  lemma {:induction false} NeverDisabledEarly(c: Config, states: seq<State>, j: nat)
    requires Run(c, states) && j < |states| && Serving(states[0])
    ensures Serving(states[j])
    decreases j
  {
    if j > 0 {
      NeverDisabledEarly(c, states, j - 1);
      assert Reconciles(c, states[j - 1], states[j - 1 + 1]) || Environment(states[j - 1], states[j - 1 + 1]);
    }
  }

  /** If it is disabled, some earlier step had seen that no resource request was left. */
  lemma DisabledAfterRequests(c: Config, states: seq<State>, j: nat)
    requires Run(c, states) && j < |states|
    requires ResourceRequests in states[0].finalizers && !states[0].controller.Disabled? && states[j].controller.Disabled?
    ensures exists k :: 0 <= k < j && LeavesAt(c, states, k, ResourceRequests) && forall o :: o in states[k].objects ==> !o.Request?
  {
    NeverDisabledEarly(c, states, j);
    LeavesUnderGuard(c, states, 0, j, ResourceRequests);
  }

  /** Once the requests' finalizer is off, every reconcile, whatever fails, leaves it stopped. */
  lemma StoppedAfterRequests(c: Config, s: State, s': State)
    requires Reconciles(c, s, s') && s.finalizers != {}
    requires DeleteWorkflows !in s.finalizers && WorkflowJobs !in s.finalizers && ResourceRequests !in s.finalizers
    ensures !s'.controller.Enabled?
  {
    var f := Head(s.finalizers).value;
    assert f in {DynamicResources, Dependencies, Crd} by {
      match f
      case DeleteWorkflows => case WorkflowJobs => case ResourceRequests =>
      case DynamicResources => case Dependencies => case Crd =>
    }
  }

  // ------------------------------------------------------ undisturbed steps

  /** Without failures a reconcile takes the next finalizer off exactly when what it waits for has come. */
  lemma ReleasedWhenAwaited(c: Config, s: State, coreFirst: bool)
    requires s.finalizers != {}
    ensures var f := Head(s.finalizers).value;
      Reconcile(c, s, coreFirst).finalizers == if Awaited(c, s, f) then s.finalizers - {f} else s.finalizers
  {
    ReleasedIff(c, s, coreFirst);
    GuardIsAwaited(c, s, Head(s.finalizers).value);
  }

  /** What an undisturbed reconcile does while it has to wait: everything the finalizer is about is asked
      to go (of the kinds of owned objects one at a time), or the delete Job is got going. */
  ghost predicate Pursues(c: Config, s: State, r: State, f: Finalizer) {
    match f
    case DeleteWorkflows => PursuesJob(c, s, r)
    case WorkflowJobs => forall o :: o in s.objects && o.WorkflowJob? && (o.typed || o.legacy) ==> o in r.deleting
    case ResourceRequests =>
      c.parsable ==> !r.controller.NotStarted? && forall o :: o in s.objects && o.Request? ==> o in r.deleting
    case DynamicResources =>
      exists o :: o in s.objects && o.Owned? && forall x :: x in s.objects && x.Owned? && x.kind == o.kind ==> x in r.deleting
    case Dependencies => forall o :: o in s.objects && o.PromiseWork? ==> o in r.deleting
    case Crd => Definition in r.deleting
  }

  /** A missing Job is created, and on request a new one once the running one, told to stop, has ended;
      otherwise the newest Job is left to run, or has ended without success. */
  predicate PursuesJob(c: Config, s: State, r: State) {
    if s.jobs != [] && IsRunning(s.jobs[|s.jobs| - 1].job) then
      && |r.jobs| == |s.jobs| && r.jobs[..|s.jobs| - 1] == s.jobs[..|s.jobs| - 1] && r.manual == s.manual
      && r.jobs[|s.jobs| - 1].job.suspend == (s.jobs[|s.jobs| - 1].job.suspend || s.manual)
    else if s.jobs == [] || s.manual then
      && !r.manual && |r.jobs| == |s.jobs| + 1 && r.jobs[..|s.jobs|] == s.jobs
      && r.objects == s.objects + {WorkflowJob(|s.jobs|, true, false)}
      && var job := r.jobs[|s.jobs|].job;
        c.pipelines != [] && job.labels == c.pipelines[0] && IsRunning(job) && !job.suspend
    else r.jobs == s.jobs && r.manual == s.manual
  }

  lemma WaitingPursues(c: Config, s: State, coreFirst: bool)
    requires s.finalizers != {} && !Awaited(c, s, Head(s.finalizers).value)
    ensures var f, r := Head(s.finalizers).value, Reconcile(c, s, coreFirst);
      r.finalizers == s.finalizers && Pursues(c, s, r, f)
  {
    var f := Head(s.finalizers).value;
    ReleasedWhenAwaited(c, s, coreFirst);
    GuardIsAwaited(c, s, f);
    match f
    case DynamicResources =>
      SweepsOneKind(s, coreFirst);
      OneKindPursued(c, s, Reconcile(c, s, coreFirst));
    case DeleteWorkflows => JobPursued(c, s);
    case _ =>
  }

  lemma OneKindPursued(c: Config, s: State, r: State)
    requires exists k :: !IsEmpty(s, OfKind(k)) && r == Sweep(Disable(s), OfKind(k))
    ensures Pursues(c, s, r, DynamicResources)
  {
    var k :| !IsEmpty(s, OfKind(k)) && r == Sweep(Disable(s), OfKind(k));
    var o :| o in Matching(s.objects, OfKind(k));
    forall x | x in s.objects && x.Owned? && x.kind == o.kind
      ensures x in r.deleting
    {
      assert x in Matching(s.objects, OfKind(k));
    }
  }

  lemma JobPursued(c: Config, s: State)
    requires !Guard(c, s, DeleteWorkflows)
    ensures PursuesJob(c, s, RunDelete(c, s))
  {
  }

  /** The finalizer under which an object is asked to go. */
  predicate Concerns(f: Finalizer, o: Object) {
    match o
    case WorkflowJob(_, typed, legacy) => f == WorkflowJobs && (typed || legacy)
    case Request(_) => f == ResourceRequests
    case Owned(_, _) => f == DynamicResources
    case PromiseWork(_) => f == Dependencies
    case Definition => f == Crd
  }

  /** Whatever fails, a reconcile asks nothing to go before its turn: all earlier finalizers are off. */
  lemma InItsTurn(c: Config, s: State, s': State, o: Object)
    requires Reconciles(c, s, s') && o in s'.deleting && o !in s.deleting
    ensures exists f :: f in s.finalizers && Concerns(f, o) && forall e :: e in s.finalizers ==> Position(f) <= Position(e)
  {
    var f := Head(s.finalizers).value;
    assert o in Swept(s);
    assert f in s.finalizers && Concerns(f, o);
  }

  /** The CRD's own finalizer is the last to go, and with a readable API only once the CRD is gone. */
  lemma DefinitionGoesFirst(c: Config, states: seq<State>, i: nat, j: nat)
    requires Run(c, states) && i <= j < |states| && c.parsable
    requires Crd in states[i].finalizers && Crd !in states[j].finalizers
    ensures exists k :: i <= k < j && states[k].finalizers == {Crd} && Definition !in states[k].objects
  {
    LeavesUnderGuard(c, states, i, j, Crd);
    var k :| i <= k < j && LeavesAt(c, states, k, Crd);
    assert states[k].finalizers == {Crd} by {
      forall e | e in states[k].finalizers
        ensures e == Crd
      {
        match e
        case DeleteWorkflows => case WorkflowJobs => case ResourceRequests =>
        case DynamicResources => case Dependencies => case Crd =>
      }
    }
  }

  lemma ReleasedIff(c: Config, s: State, coreFirst: bool)
    requires s.finalizers != {}
    ensures var f := Head(s.finalizers).value;
      Reconcile(c, s, coreFirst).finalizers == if Guard(c, s, f) then s.finalizers - {f} else s.finalizers
  {
    if Head(s.finalizers) == Some(DynamicResources) {
      SweepsOneKind(s, coreFirst);
    }
  }

  lemma SweepsOneKind(s: State, coreFirst: bool)
    ensures var r := SweepKinds(Disable(s), KindOrder(coreFirst));
      if forall kind: Kind :: IsEmpty(s, OfKind(kind)) then r == Release(Disable(s), DynamicResources)
      else exists k :: !IsEmpty(s, OfKind(k)) && r == Sweep(Disable(s), OfKind(k))
  {
    SweepKindsIs(Disable(s), KindOrder(coreFirst));
    forall kind: Kind
      ensures kind in KindOrder(coreFirst) && (IsEmpty(s, OfKind(kind)) <==> IsEmpty(Disable(s), OfKind(kind)))
    {
      AllKinds(coreFirst, kind);
    }
  }

  /** The workflow-jobs finalizer leaves while labelled Jobs remain if and only if exactly one of
      its two queries is empty. */
  lemma JobsLeftBehindIff(c: Config, s: State, coreFirst: bool)
    requires Head(s.finalizers) == Some(WorkflowJobs)
    ensures (WorkflowJobs !in Reconcile(c, s, coreFirst).finalizers
             && exists o :: o in s.objects && (Matches(TypedJobs, o) || Matches(LegacyJobs, o)))
      <==> IsEmpty(s, TypedJobs) != IsEmpty(s, LegacyJobs)
  {
    ReleasedIff(c, s, coreFirst);
    assert forall o :: o in Matching(s.objects, TypedJobs) || o in Matching(s.objects, LegacyJobs) ==> o in s.objects;
    if o :| o in s.objects && (Matches(TypedJobs, o) || Matches(LegacyJobs, o)) {
      assert o in Matching(s.objects, TypedJobs) || o in Matching(s.objects, LegacyJobs);
    }
    if !IsEmpty(s, TypedJobs) {
      var o :| o in Matching(s.objects, TypedJobs);
      assert o in s.objects && Matches(TypedJobs, o);
    }
    if !IsEmpty(s, LegacyJobs) {
      var o :| o in Matching(s.objects, LegacyJobs);
      assert o in s.objects && Matches(LegacyJobs, o);
    }
  }

  /** For instance: a Promise whose delete workflows have run, with one Job that has the labels every
      Job gets today. */
  lemma CurrentJobIsLeftBehind(c: Config, id: nat, coreFirst: bool)
    ensures var job, later := WorkflowJob(id, true, false), {ResourceRequests, DynamicResources, Dependencies, Crd};
      var s := PromiseDeletion.State.State({WorkflowJobs} + later, {job}, {}, [], false, NotStarted);
      var r := Reconcile(c, s, coreFirst);
      r.finalizers == later && r.objects == {job}
  {
    var job, later := WorkflowJob(id, true, false), {ResourceRequests, DynamicResources, Dependencies, Crd};
    var s := PromiseDeletion.State.State({WorkflowJobs} + later, {job}, {}, [], false, NotStarted);
    assert Matching(s.objects, LegacyJobs) == {};
    ReleasedIff(c, s, coreFirst);
    assert s.finalizers - {WorkflowJobs} == later;
  }

  // ------------------------------------------------------------ termination

  /** What keeps a deletion going: a reconcile without failures, some deleted objects going, and the
      delete Job moving on. */
  datatype Move =
    | Attempt(coreFirst: bool)
    | Departure(gone: set<Object>)
    | Progress(active: nat, conditions: seq<JobCondition>, succeeded: nat)

  /** Resource requests go only while their controller runs; everything else under deletion goes. */
  function Going(s: State): set<Object> {
    set o | o in s.deleting && (o.Request? ==> s.controller.Enabled?)
  }

  predicate JobRuns(s: State) {
    Newest(s).Some? && IsRunning(Newest(s).value.job)
  }

  function Moved(j: DeleteJob, m: Move): DeleteJob
    requires m.Progress?
  {
    j.(job := j.job.(active := m.active, conditions := m.conditions), succeeded := m.succeeded)
  }

  /** A delete Job ends well unless it was told to stop, and then it stops without success. */
  predicate Can(s: State, m: Move) {
    match m
    case Attempt(_) => true
    case Departure(gone) => gone <= Going(s)
    case Progress(_, _, succeeded) =>
      JobRuns(s) &&
      var j := Newest(s).value;
      if j.job.suspend then succeeded == j.succeeded
      else succeeded >= j.succeeded && (IsRunning(Moved(j, m).job) || succeeded > 0)
  }

  function Do(c: Config, s: State, m: Move): State
    requires Can(s, m)
  {
    match m
    case Attempt(coreFirst) => Reconcile(c, s, coreFirst)
    case Departure(gone) => s.(objects := s.objects - gone, deleting := s.deleting - gone)
    case Progress(_, _, _) => s.(jobs := s.jobs[|s.jobs| - 1 := Moved(Newest(s).value, m)])
  }

  /** The move does something, and not just for a Job that goes on running. */
  predicate Advances(c: Config, s: State, m: Move)
    requires Can(s, m)
  {
    if m.Progress? then !JobRuns(Do(c, s, m)) else Do(c, s, m) != s
  }

  predicate Inv(s: State) {
    s.deleting <= s.objects && Serving(s)
  }

  /** The newest delete Job ends, or will end, without success and nobody asked for another one. */
  predicate JobSticks(c: Config, s: State) {
    && DeleteWorkflows in s.finalizers
    && c.pipelines != [] && !s.manual && Newest(s).Some? && Newest(s).value.succeeded == 0
    && (!IsRunning(Newest(s).value.job) || Newest(s).value.job.suspend)
  }

  predicate Sticks(c: Config, s: State) {
    JobSticks(c, s) || (ResourceRequests in s.finalizers && !c.parsable)
  }

  /** How far the delete pipeline has come. */
  function Phase(s: State): nat {
    if DeleteWorkflows !in s.finalizers then 0
    else if JobRuns(s) then (if !s.manual then 2 else if Newest(s).value.job.suspend then 4 else 5)
    else if s.manual || Newest(s).None? then 3
    else 1
  }

  function Rank(controller: Controller): nat {
    match controller
    case NotStarted => 2
    case Enabled => 1
    case Disabled => 0
  }

  /** Finalizers, delete pipeline, objects, objects not yet asked to go, controller. */
  function Weight(s: State): nat {
    |s.finalizers| + 3 * Phase(s) + |s.objects| + |s.objects - s.deleting| + Rank(s.controller)
  }

  // -------------------------------------------------------- one move

  lemma SmallerSet<T>(a: set<T>, b: set<T>)
    requires a <= b
    ensures |a| <= |b| && (a != b ==> |a| < |b|)
  {
    assert b == a + (b - a);
    if a != b {
      assert b - a != {};
    }
  }

  /** The delete pipeline's step: each state but a wait comes closer to the end. */
  lemma DeletePipelineLowers(c: Config, s: State)
    requires DeleteWorkflows in s.finalizers && Inv(s)
    ensures var r := RunDelete(c, s);
      && Inv(r) && (Sticks(c, s) <==> Sticks(c, r))
      && (r != s ==> Weight(r) < Weight(s))
  {
    var r := RunDelete(c, s);
    if Guard(c, s, DeleteWorkflows) {
      SmallerSet(r.finalizers, s.finalizers);
    } else if !JobRuns(s) && (Newest(s).None? || s.manual) {
      var job := WorkflowJob(|s.jobs|, true, false);
      AddedOne(s.objects, s.deleting, job);
    }
  }

  lemma AddedOne(objects: set<Object>, deleting: set<Object>, o: Object)
    ensures |objects + {o}| <= |objects| + 1 && |objects + {o} - deleting| <= |objects - deleting| + 1
  {
    assert objects + {o} - deleting <= (objects - deleting) + {o};
    SmallerSet(objects + {o} - deleting, (objects - deleting) + {o});
  }

  /** Nothing is added, and what can be lost is lost for good. */
  predicate OnlyLess(s: State, r: State) {
    && r.finalizers <= s.finalizers && r.objects == s.objects && s.deleting <= r.deleting <= s.objects
    && r.jobs == s.jobs && r.manual == s.manual
    && (r.controller == s.controller || Rank(r.controller) < Rank(s.controller))
    && DeleteWorkflows !in s.finalizers
  }

  lemma LessIsLighter(s: State, r: State)
    requires OnlyLess(s, r) && r != s
    ensures Weight(r) < Weight(s)
  {
    SmallerSet(r.finalizers, s.finalizers);
    SmallerSet(s.objects - r.deleting, s.objects - s.deleting);
    if r.deleting != s.deleting {
      var o :| o in r.deleting && o !in s.deleting;
      assert o in s.objects - s.deleting && o !in s.objects - r.deleting;
    }
  }

  lemma AttemptOnlyLess(c: Config, s: State, coreFirst: bool)
    requires Inv(s) && DeleteWorkflows !in s.finalizers
    ensures OnlyLess(s, Reconcile(c, s, coreFirst)) && Serving(Reconcile(c, s, coreFirst))
  {
    if Head(s.finalizers) == Some(DynamicResources) {
      KindsOnlyLess(s, coreFirst);
    } else if Head(s.finalizers) == Some(WorkflowJobs) || Head(s.finalizers) == Some(ResourceRequests) {
      EarlyOnlyLess(c, s, coreFirst);
    }
  }

  lemma KindsOnlyLess(s: State, coreFirst: bool)
    requires Inv(s) && Head(s.finalizers) == Some(DynamicResources)
    ensures var r := SweepKinds(Disable(s), KindOrder(coreFirst));
      OnlyLess(s, r) && Serving(r)
  {
    SweepsOneKind(s, coreFirst);
  }

  lemma EarlyOnlyLess(c: Config, s: State, coreFirst: bool)
    requires Inv(s) && (Head(s.finalizers) == Some(WorkflowJobs) || Head(s.finalizers) == Some(ResourceRequests))
    ensures OnlyLess(s, Reconcile(c, s, coreFirst)) && Serving(Reconcile(c, s, coreFirst))
  {
  }

  lemma AttemptLowers(c: Config, s: State, coreFirst: bool)
    requires Inv(s)
    ensures var r := Reconcile(c, s, coreFirst);
      && Inv(r) && (Sticks(c, s) <==> Sticks(c, r))
      && (r != s ==> Weight(r) < Weight(s))
  {
    if DeleteWorkflows in s.finalizers {
      DeletePipelineLowers(c, s);
    } else {
      var r := Reconcile(c, s, coreFirst);
      AttemptOnlyLess(c, s, coreFirst);
      if r != s {
        LessIsLighter(s, r);
      }
      if s.finalizers != {} {
        ReleasedIff(c, s, coreFirst);
      }
    }
  }

  lemma DepartureLowers(c: Config, s: State, gone: set<Object>)
    requires Inv(s) && gone <= Going(s)
    ensures var r := Do(c, s, Departure(gone));
      && Inv(r) && (Sticks(c, s) <==> Sticks(c, r))
      && (r != s ==> Weight(r) < Weight(s))
  {
    GoneShrinks(s.objects, s.deleting, gone);
  }

  lemma GoneShrinks(objects: set<Object>, deleting: set<Object>, gone: set<Object>)
    requires gone <= deleting <= objects
    ensures (objects - gone) - (deleting - gone) == objects - deleting && deleting - gone <= objects - gone
    ensures gone == {} ==> objects - gone == objects && deleting - gone == deleting
    ensures gone != {} ==> |objects - gone| < |objects|
  {
    SmallerSet(objects - gone, objects);
    if gone != {} {
      var o :| o in gone;
      assert o in objects && o !in objects - gone;
    }
  }

  lemma ProgressLowers(c: Config, s: State, m: Move)
    requires Inv(s) && m.Progress? && Can(s, m)
    ensures var r := Do(c, s, m);
      && Inv(r) && (Sticks(c, s) <==> Sticks(c, r))
      && Weight(r) <= Weight(s) && (DeleteWorkflows in s.finalizers && !JobRuns(r) ==> Weight(r) < Weight(s))
  {
    var r := Do(c, s, m);
    assert Newest(r) == Some(Moved(Newest(s).value, m));
  }

  /** Without the first finalizer the delete Job matters no more. */
  predicate Matters(c: Config, s: State, m: Move)
    requires Can(s, m)
  {
    Advances(c, s, m) && (m.Progress? ==> DeleteWorkflows in s.finalizers)
  }

  /** No move raises the weight, each one that matters lowers it, and none makes or ends a deadlock. */
  lemma MoveLowers(c: Config, s: State, m: Move)
    requires Inv(s) && Can(s, m)
    ensures var r := Do(c, s, m);
      && Inv(r) && (Sticks(c, s) <==> Sticks(c, r))
      && Weight(r) <= Weight(s) && (Matters(c, s, m) ==> Weight(r) < Weight(s))
  {
    match m
    case Attempt(coreFirst) => AttemptLowers(c, s, coreFirst);
    case Departure(gone) => DepartureLowers(c, s, gone);
    case Progress(_, _, _) => ProgressLowers(c, s, m);
  }

  // --------------------------------------------------- there is always one

  /** Nothing that matters can happen any more. */
  ghost predicate Quiescent(c: Config, s: State) {
    forall m :: Can(s, m) ==> !Matters(c, s, m)
  }

  /** The move that ends a running delete Job. */
  function Ending(s: State): Move
    requires JobRuns(s)
  {
    var j := Newest(s).value;
    if j.job.suspend then Progress(0, [JobSuspended], j.succeeded) else Progress(0, [JobComplete], j.succeeded + 1)
  }

  lemma EndingEnds(c: Config, s: State)
    requires JobRuns(s) && DeleteWorkflows in s.finalizers
    ensures Can(s, Ending(s)) && Matters(c, s, Ending(s))
  {
    var r := Do(c, s, Ending(s));
    assert Newest(r) == Some(Moved(Newest(s).value, Ending(s)));
  }

  /** An object that has to go has been asked to, or is by the next reconcile. */
  lemma BlockedMoves(c: Config, s: State, o: Object)
    requires Inv(s) && s.finalizers != {} && !Sticks(c, s) && o in s.objects
    requires o in Reconcile(c, s, true).deleting && Head(s.finalizers) != Some(DeleteWorkflows)
    requires o.Request? ==> Head(s.finalizers) == Some(ResourceRequests)
    ensures !Quiescent(c, s)
  {
    if Reconcile(c, s, true) != s {
      assert Matters(c, s, Attempt(true));
    } else {
      var m := Departure({o});
      assert o in Going(s);
      assert Can(s, m) && o !in Do(c, s, m).objects;
      assert Matters(c, s, m);
    }
  }

  /** The first kind that is not empty is swept. */
  lemma SweptKind(s: State)
    requires !(forall kind: Kind :: IsEmpty(s, OfKind(kind)))
    ensures exists o: Object :: o.Owned? && o in s.objects && o in SweepKinds(Disable(s), KindOrder(true)).deleting
  {
    SweepsOneKind(s, true);
    var k :| !IsEmpty(s, OfKind(k)) && SweepKinds(Disable(s), KindOrder(true)) == Sweep(Disable(s), OfKind(k));
    var o :| o in Matching(s.objects, OfKind(k));
    assert o.Owned? && o in SweepKinds(Disable(s), KindOrder(true)).deleting;
  }

  lemma BlockedIsNotQuiet(c: Config, s: State)
    requires Inv(s) && s.finalizers != {} && !Sticks(c, s) && Head(s.finalizers) != Some(DeleteWorkflows)
    requires !Guard(c, s, Head(s.finalizers).value)
    ensures !Quiescent(c, s)
  {
    match Head(s.finalizers).value {
      case WorkflowJobs =>
        var o :| o in Matching(s.objects, TypedJobs);
        BlockedMoves(c, s, o);
      case ResourceRequests =>
        var o :| o in Matching(s.objects, AllRequests);
        BlockedMoves(c, s, o);
      case DynamicResources =>
        SweptKind(s);
        var o: Object :| o.Owned? && o in s.objects && o in SweepKinds(Disable(s), KindOrder(true)).deleting;
        BlockedMoves(c, s, o);
      case Dependencies =>
        var o :| o in Matching(s.objects, AllWorks);
        BlockedMoves(c, s, o);
      case Crd =>
        BlockedMoves(c, s, Definition);
    }
  }

  /** As long as finalizers are left and nothing is stuck, some move that matters is possible. */
  lemma QuietMeansDone(c: Config, s: State)
    requires Inv(s) && Quiescent(c, s)
    ensures s.finalizers == {} <==> !Sticks(c, s)
  {
    if s.finalizers != {} && !Sticks(c, s) {
      var f := Head(s.finalizers).value;
      if Guard(c, s, f) {
        ReleasedIff(c, s, true);
        assert Matters(c, s, Attempt(true));
      } else if f == DeleteWorkflows {
        if JobRuns(s) {
          EndingEnds(c, s);
        } else {
          assert |Reconcile(c, s, true).jobs| > |s.jobs|;
          assert Matters(c, s, Attempt(true));
        }
      } else {
        BlockedIsNotQuiet(c, s);
      }
      assert false;
    }
  }

  // ------------------------------------------------------------- all runs

  ghost predicate CanAll(c: Config, s: State, moves: seq<Move>)
    decreases |moves|
  {
    moves == [] || (Can(s, moves[0]) && CanAll(c, Do(c, s, moves[0]), moves[1..]))
  }

  ghost function DoAll(c: Config, s: State, moves: seq<Move>): State
    requires CanAll(c, s, moves)
    decreases |moves|
  {
    if moves == [] then s else DoAll(c, Do(c, s, moves[0]), moves[1..])
  }

  /** How many of the moves matter. */
  ghost function Mattering(c: Config, s: State, moves: seq<Move>): nat
    requires CanAll(c, s, moves)
    decreases |moves|
  {
    if moves == [] then 0
    else (if Matters(c, s, moves[0]) then 1 else 0) + Mattering(c, Do(c, s, moves[0]), moves[1..])
  }

  lemma {:induction false} MovesLower(c: Config, s: State, moves: seq<Move>)
    requires Inv(s) && CanAll(c, s, moves)
    ensures var r := DoAll(c, s, moves);
      Inv(r) && (Sticks(c, s) <==> Sticks(c, r)) && Mattering(c, s, moves) + Weight(r) <= Weight(s)
    decreases |moves|
  {
    if moves != [] {
      MoveLowers(c, s, moves[0]);
      MovesLower(c, Do(c, s, moves[0]), moves[1..]);
    }
  }

  /** In whatever order reconciles, departing objects and the delete Job come, at most `Weight` moves
      matter.  A run in which none is left has ended the deletion if and only if the newest delete Job
      was not ending without success, and the API can be read if resource requests were to be cleaned
      up; and no run ends a deletion for which that does not hold. */
  lemma DeletionFinishesIff(c: Config, s: State, moves: seq<Move>)
    requires Inv(s) && CanAll(c, s, moves)
    ensures var r := DoAll(c, s, moves);
      && Mattering(c, s, moves) <= Weight(s)
      && (Quiescent(c, r) ==> (r.finalizers == {} <==> !Sticks(c, s)))
      && (Sticks(c, s) ==> r.finalizers != {})
  {
    MovesLower(c, s, moves);
    if Quiescent(c, DoAll(c, s, moves)) {
      QuietMeansDone(c, DoAll(c, s, moves));
    }
  }
}
