/** The finalizer chain that takes a Promise apart
    (deletePromise in internal/controller/promise_controller.go). */
module PromiseDeletion {
  import opened Wrappers
  import opened Workflow

  /** In the order of the chain. */
  datatype Finalizer = DeleteWorkflows | WorkflowJobs | ResourceRequests | DynamicResources | Dependencies | Crd

  datatype Kind = ClusterRoleBinding | ClusterRole | RoleBinding | Role | ServiceAccount | ConfigMap

  /** What the Promise owns.  `typed` and `legacy`: the workflow Job matches the query by the
      current, by the legacy labels. */
  datatype Object =
    | WorkflowJob(id: nat, typed: bool, legacy: bool)
    | Request(id: nat)
    | Owned(kind: Kind, id: nat)
    | PromiseWork(id: nat)
    | Definition

  /** A Job of the first delete pipeline, with the counters of its status. */
  datatype DeleteJob = DeleteJob(job: Job, succeeded: nat, failed: nat)

  datatype Controller = NotStarted | Enabled | Disabled

  /** `pipelines`: how many delete pipelines the Promise has; `parsable`: its API unmarshals. */
  datatype Config = Config(pipelines: seq<JobLabels>, parsable: bool)

  /** `deleting`: a Delete call went through and the object is not gone yet. */
  datatype State = State(
    finalizers: set<Finalizer>,
    objects: set<Object>,
    deleting: set<Object>,
    jobs: seq<DeleteJob>,
    manual: bool,
    controller: Controller)

  // ------------------------------------------------------------- one query

  datatype Query = TypedJobs | LegacyJobs | AllRequests | OfKind(kind: Kind) | AllWorks

  predicate Matches(q: Query, o: Object) {
    match q
    case TypedJobs => o.WorkflowJob? && o.typed
    case LegacyJobs => o.WorkflowJob? && o.legacy
    case AllRequests => o.Request?
    case OfKind(kind) => o.Owned? && o.kind == kind
    case AllWorks => o.PromiseWork?
  }

  function Matching(objects: set<Object>, q: Query): set<Object> {
    set o | o in objects && Matches(q, o)
  }

  predicate IsEmpty(s: State, q: Query) {
    Matching(s.objects, q) == {}
  }

  function Sweep(s: State, q: Query): State {
    s.(deleting := s.deleting + Matching(s.objects, q))
  }

  // ------------------------------------------------------------- the chain

  function Position(f: Finalizer): nat {
    match f
    case DeleteWorkflows => 0
    case WorkflowJobs => 1
    case ResourceRequests => 2
    case DynamicResources => 3
    case Dependencies => 4
    case Crd => 5
  }

  /** The finalizer a reconcile works on. */
  function Head(fs: set<Finalizer>): (h: Option<Finalizer>)
    ensures h.None? <==> fs == {}
    ensures h.Some? ==> h.value in fs && forall f :: f in fs ==> Position(h.value) <= Position(f)
  {
    if DeleteWorkflows in fs then Some(DeleteWorkflows)
    else if WorkflowJobs in fs then Some(WorkflowJobs)
    else if ResourceRequests in fs then Some(ResourceRequests)
    else if DynamicResources in fs then Some(DynamicResources)
    else if Dependencies in fs then Some(Dependencies)
    else if Crd in fs then Some(Crd)
    else
      assert forall f :: f in fs ==> Position(f) > 5;
      None
  }

  function Newest(s: State): Option<DeleteJob> {
    if s.jobs == [] then None else Some(s.jobs[|s.jobs| - 1])
  }

  /** When a reconcile may take a finalizer off. */
  predicate Guard(c: Config, s: State, f: Finalizer) {
    match f
    case DeleteWorkflows =>
      c.pipelines == [] ||
      (Newest(s).Some? && !s.manual && !IsRunning(Newest(s).value.job) && Newest(s).value.succeeded > 0)
    case WorkflowJobs => IsEmpty(s, TypedJobs) || IsEmpty(s, LegacyJobs)
    case ResourceRequests => c.parsable && IsEmpty(s, AllRequests)
    case DynamicResources => forall kind: Kind :: IsEmpty(s, OfKind(kind))
    case Dependencies => IsEmpty(s, AllWorks)
    case Crd => !c.parsable || Definition !in s.objects
  }

  function Release(s: State, f: Finalizer): State {
    s.(finalizers := s.finalizers - {f})
  }

  // ---------------------------------------------------- without any failure

  function SuspendLast(s: State): State
    requires s.jobs != []
  {
    var last := s.jobs[|s.jobs| - 1];
    s.(jobs := s.jobs[|s.jobs| - 1 := last.(job := last.job.(suspend := true))])
  }

  /** A new Job carries the current labels only. */
  function CreateDelete(c: Config, s: State): State
    requires c.pipelines != []
  {
    s.(manual := false,
       jobs := s.jobs + [DeleteJob(NewJob(c.pipelines[0]), 0, 0)],
       objects := s.objects + {WorkflowJob(|s.jobs|, true, false)})
  }

  /** ReconcileDelete: only the first pipeline counts. */
  function RunDelete(c: Config, s: State): State {
    if Guard(c, s, DeleteWorkflows) then Release(s, DeleteWorkflows)
    else if Newest(s).Some? && IsRunning(Newest(s).value.job) then (if s.manual then SuspendLast(s) else s)
    else if Newest(s).None? || s.manual then CreateDelete(c, s)
    else s
  }

  /** The kinds in the order of the two-group map iteration. */
  function KindOrder(coreFirst: bool): seq<Kind> {
    var rbac, core := [ClusterRoleBinding, ClusterRole, RoleBinding, Role], [ServiceAccount, ConfigMap];
    if coreFirst then core + rbac else rbac + core
  }

  /** Only the first kind that has objects left is swept. */
  function SweepKinds(s: State, kinds: seq<Kind>): State {
    if kinds == [] then Release(s, DynamicResources)
    else if IsEmpty(s, OfKind(kinds[0])) then SweepKinds(s, kinds[1..])
    else Sweep(s, OfKind(kinds[0]))
  }

  function Disable(s: State): State {
    if s.controller.NotStarted? then s else s.(controller := Disabled)
  }

  function Start(s: State): State {
    if s.controller.NotStarted? then s.(controller := Enabled) else s
  }

  function ReleaseIf(s: State, f: Finalizer, guard: bool): State {
    if guard then Release(s, f) else s
  }

  function DropDefinition(c: Config, s: State): State {
    if Guard(c, s, Crd) then Release(s, Crd) else s.(deleting := s.deleting + {Definition})
  }

  function Reconcile(c: Config, s: State, coreFirst: bool): State {
    match Head(s.finalizers)
    case None => s
    case Some(f) =>
      match f
      case DeleteWorkflows => RunDelete(c, s)
      case WorkflowJobs => ReleaseIf(Sweep(Sweep(s, TypedJobs), LegacyJobs), f, Guard(c, s, f))
      case ResourceRequests => if !c.parsable then s else ReleaseIf(Start(Sweep(s, AllRequests)), f, Guard(c, s, f))
      case DynamicResources => SweepKinds(Disable(s), KindOrder(coreFirst))
      case Dependencies => ReleaseIf(Sweep(Disable(s), AllWorks), f, Guard(c, s, f))
      case Crd => DropDefinition(c, Disable(s))
  }

  // ------------------------------------------------- whatever call may fail

  /** The objects a reconcile may ask to delete. */
  function Swept(s: State): set<Object> {
    match Head(s.finalizers)
    case Some(WorkflowJobs) => Matching(s.objects, TypedJobs) + Matching(s.objects, LegacyJobs)
    case Some(ResourceRequests) => Matching(s.objects, AllRequests)
    case Some(DynamicResources) => set o | o in s.objects && o.Owned?
    case Some(Dependencies) => Matching(s.objects, AllWorks)
    case Some(Crd) => {Definition}
    case _ => {}
  }

  predicate ControllerStep(s: State, s': State) {
    match Head(s.finalizers)
    case Some(f) =>
      if Position(f) > 2 then s'.controller == Disable(s).controller
      else s'.controller == s.controller || (f == ResourceRequests && s'.controller == Start(s).controller)
    case None => s'.controller == s.controller
  }

  /** What a reconcile may do to the state, wherever it stops. */
  predicate Reconciles(c: Config, s: State, s': State) {
    && (s'.finalizers == s.finalizers ||
        (Head(s.finalizers).Some? && Guard(c, s, Head(s.finalizers).value)
         && s'.finalizers == s.finalizers - {Head(s.finalizers).value}))
    && s.deleting <= s'.deleting <= s.deleting + Swept(s)
    && ControllerStep(s, s')
    && (Head(s.finalizers) != Some(DeleteWorkflows) ==>
          s'.objects == s.objects && s'.jobs == s.jobs && s'.manual == s.manual)
  }

  lemma {:induction false} SweepKindsIs(s: State, kinds: seq<Kind>)
    ensures (forall k :: k in kinds ==> IsEmpty(s, OfKind(k))) ==> SweepKinds(s, kinds) == Release(s, DynamicResources)
    ensures !(forall k :: k in kinds ==> IsEmpty(s, OfKind(k))) ==>
      exists k :: k in kinds && !IsEmpty(s, OfKind(k)) && SweepKinds(s, kinds) == Sweep(s, OfKind(k))
  {
    if kinds != [] && IsEmpty(s, OfKind(kinds[0])) {
      SweepKindsIs(s, kinds[1..]);
      assert kinds == [kinds[0]] + kinds[1..];
    }
  }

  lemma AllKinds(coreFirst: bool, k: Kind)
    ensures k in KindOrder(coreFirst)
  {
    var order := KindOrder(coreFirst);
    assert |order| == 6 && {order[0], order[1], order[2], order[3], order[4], order[5]} ==
      {ClusterRoleBinding, ClusterRole, RoleBinding, Role, ServiceAccount, ConfigMap};
    match k
    case ClusterRoleBinding => case ClusterRole => case RoleBinding =>
    case Role => case ServiceAccount => case ConfigMap =>
  }

  /** Which calls to the API server fail: listing a query or the delete Jobs, deleting an object,
      updating the Promise, starting the controller, suspending a Job, removing the label, creating
      the Job, reading the CRD. */
  datatype ApiFaults = ApiFaults(
    lists: set<Query>,
    jobs: bool,
    refused: set<Object>,
    update: bool,
    start: bool,
    suspend: bool,
    unlabel: bool,
    apply: bool,
    get: bool)

  predicate NoFaults(f: ApiFaults) {
    f == ApiFaults({}, false, {}, false, false, false, false, false, false)
  }

  class PromiseController {
    const config: Config
    var finalizers: set<Finalizer>
    var objects: set<Object>
    var deleting: set<Object>
    var jobs: seq<DeleteJob>
    var manual: bool
    var controller: Controller

    constructor (config: Config, s: State)
      ensures this.config == config && Snapshot() == s
    {
      this.config := config;
      finalizers, objects, deleting := s.finalizers, s.objects, s.deleting;
      jobs, manual, controller := s.jobs, s.manual, s.controller;
    }

    function Snapshot(): State
      reads this
    {
      State.State(finalizers, objects, deleting, jobs, manual, controller)
    }

    /** deletePromise: one reconcile of a Promise that is being deleted. */
    method DeletePromise(f: ApiFaults, coreFirst: bool)
      modifies this
      ensures Reconciles(config, old(Snapshot()), Snapshot())
      ensures NoFaults(f) ==> Snapshot() == Reconcile(config, old(Snapshot()), coreFirst)
    {
      if finalizers == {} {
        return;
      }
      if DeleteWorkflows in finalizers {
        var requeue, ok := ReconcileDelete(f);
        if ok && !requeue {
          RemoveFinalizer(DeleteWorkflows, f);
        }
        return;
      }
      if WorkflowJobs in finalizers {
        DeletePromiseWorkflowJobs(f);
        return;
      }
      if ResourceRequests in finalizers {
        DeleteResourceRequests(f);
        return;
      }
      if !controller.NotStarted? {
        controller := Disabled;
      }
      if DynamicResources in finalizers {
        DeleteDynamicControllerAndWorkflowResources(f, coreFirst);
      } else if Dependencies in finalizers {
        DeleteWork(f);
      } else if Crd in finalizers {
        DeleteCRDs(f);
      }
    }

    method RemoveFinalizer(name: Finalizer, f: ApiFaults)
      modifies this`finalizers
      ensures finalizers == if f.update then old(finalizers) else old(finalizers) - {name}
    {
      if !f.update {
        finalizers := finalizers - {name};
      }
    }

    /** ReconcileDelete of the workflow reconciler. */
    method ReconcileDelete(f: ApiFaults) returns (requeue: bool, ok: bool)
      modifies this`jobs, this`objects, this`manual
      ensures ok && !requeue ==> Snapshot() == old(Snapshot()) && Guard(config, Snapshot(), DeleteWorkflows)
      ensures NoFaults(f) ==> (ok && !requeue <==> Guard(config, old(Snapshot()), DeleteWorkflows))
      ensures NoFaults(f) && !(ok && !requeue) ==> Snapshot() == RunDelete(config, old(Snapshot()))
    {
      if config.pipelines == [] {
        return false, true;
      }
      if f.jobs {
        return false, false;
      }
      var newest := Newest(Snapshot());
      if newest.Some? && IsRunning(newest.value.job) {
        if manual {
          if !f.suspend {
            jobs := SuspendLast(Snapshot()).jobs;
          }
          return true, !f.suspend;
        }
        return true, true;
      }
      if newest.None? || manual {
        requeue, ok := CreateDeletePipeline(f);
        return;
      }
      if newest.value.succeeded > 0 {
        return false, true;
      }
      if newest.value.failed > 0 {
        return false, false;
      }
      return true, true;
    }

    /** The outcome of applying the Job is not looked at. */
    method CreateDeletePipeline(f: ApiFaults) returns (requeue: bool, ok: bool)
      requires config.pipelines != []
      modifies this`jobs, this`objects, this`manual
      ensures ok == requeue
      ensures NoFaults(f) ==> ok && Snapshot() == CreateDelete(config, old(Snapshot()))
    {
      if manual {
        if f.unlabel {
          return false, false;
        }
        manual := false;
      }
      if !f.apply {
        objects := objects + {WorkflowJob(|jobs|, true, false)};
        jobs := jobs + [DeleteJob(NewJob(config.pipelines[0]), 0, 0)];
      }
      return true, true;
    }

    /** deleteAllResourcesWithKindMatchingLabel: `remaining` is about the list, not about what the
        Delete calls left. */
    method DeleteAll(q: Query, f: ApiFaults) returns (remaining: bool, ok: bool)
      modifies this`deleting
      ensures old(deleting) <= deleting <= old(deleting) + Matching(objects, q)
      ensures ok ==> deleting == old(deleting) + Matching(objects, q)
      ensures ok ==> (remaining <==> Matching(objects, q) != {})
      ensures NoFaults(f) ==> ok
    {
      if q in f.lists {
        return true, false;
      }
      var todo := Matching(objects, q);
      if todo == {} {
        return false, true;
      }
      ghost var items := todo;
      while todo != {}
        invariant todo <= items
        invariant deleting == old(deleting) + (items - todo)
        decreases todo
      {
        var o :| o in todo;
        if o in f.refused {
          return true, false;
        }
        deleting := deleting + {o};
        todo := todo - {o};
      }
      return true, true;
    }

    method DeletePromiseWorkflowJobs(f: ApiFaults)
      requires Head(finalizers) == Some(WorkflowJobs)
      modifies this`deleting, this`finalizers
      ensures Reconciles(config, old(Snapshot()), Snapshot())
      ensures NoFaults(f) ==> Snapshot() == Reconcile(config, old(Snapshot()), true)
    {
      var remaining, ok := DeleteAll(TypedJobs, f);
      if !ok {
        return;
      }
      var legacyRemaining;
      legacyRemaining, ok := DeleteAll(LegacyJobs, f);
      if !ok {
        return;
      }
      if !remaining || !legacyRemaining {
        RemoveFinalizer(WorkflowJobs, f);
      }
    }

    method DeleteResourceRequests(f: ApiFaults)
      requires Head(finalizers) == Some(ResourceRequests)
      modifies this`deleting, this`finalizers, this`controller
      ensures Reconciles(config, old(Snapshot()), Snapshot())
      ensures NoFaults(f) ==> Snapshot() == Reconcile(config, old(Snapshot()), true)
    {
      if !config.parsable {
        return;
      }
      var remaining, ok := DeleteAll(AllRequests, f);
      if !ok {
        return;
      }
      if controller.NotStarted? {
        controller := Enabled;
        if f.start {
          return;
        }
      }
      if !remaining {
        RemoveFinalizer(ResourceRequests, f);
      }
    }

    /** Stops at the first kind that has objects left. */
    method DeleteDynamicControllerAndWorkflowResources(f: ApiFaults, coreFirst: bool)
      modifies this`deleting, this`finalizers
      ensures old(deleting) <= deleting <= old(deleting) + set o | o in objects && o.Owned?
      ensures finalizers == old(finalizers) || (finalizers == old(finalizers) - {DynamicResources}
        && forall kind: Kind :: IsEmpty(old(Snapshot()), OfKind(kind)))
      ensures NoFaults(f) ==> Snapshot() == SweepKinds(old(Snapshot()), KindOrder(coreFirst))
    {
      var kinds := KindOrder(coreFirst);
      var i := 0;
      while i < |kinds|
        invariant 0 <= i <= |kinds|
        invariant Snapshot() == old(Snapshot())
        invariant forall j :: 0 <= j < i ==> IsEmpty(Snapshot(), OfKind(kinds[j]))
        invariant SweepKinds(Snapshot(), kinds) == SweepKinds(Snapshot(), kinds[i..])
      {
        assert kinds[i..][0] == kinds[i] && kinds[i..][1..] == kinds[i + 1..];
        var remaining, ok := DeleteAll(OfKind(kinds[i]), f);
        if !ok || remaining {
          return;
        }
        i := i + 1;
      }
      forall kind: Kind
        ensures IsEmpty(Snapshot(), OfKind(kind))
      {
        AllKinds(coreFirst, kind);
      }
      RemoveFinalizer(DynamicResources, f);
    }

    method DeleteWork(f: ApiFaults)
      modifies this`deleting, this`finalizers
      ensures old(deleting) <= deleting <= old(deleting) + Matching(objects, AllWorks)
      ensures finalizers == old(finalizers) ||
        (finalizers == old(finalizers) - {Dependencies} && IsEmpty(old(Snapshot()), AllWorks))
      ensures NoFaults(f) ==>
        Snapshot() == ReleaseIf(Sweep(old(Snapshot()), AllWorks), Dependencies, IsEmpty(old(Snapshot()), AllWorks))
    {
      var remaining, ok := DeleteAll(AllWorks, f);
      if ok && !remaining {
        RemoveFinalizer(Dependencies, f);
      }
    }

    method DeleteCRDs(f: ApiFaults)
      modifies this`deleting, this`finalizers
      ensures old(deleting) <= deleting <= old(deleting) + {Definition}
      ensures finalizers == old(finalizers) ||
        (finalizers == old(finalizers) - {Crd} && (config.parsable ==> Definition !in objects))
      ensures NoFaults(f) && config.parsable && Definition in objects ==>
        finalizers == old(finalizers) && Definition in deleting
      ensures NoFaults(f) ==> Snapshot() == DropDefinition(config, old(Snapshot()))
    {
      if !config.parsable {
        RemoveFinalizer(Crd, f);
        return;
      }
      if Definition !in objects && !f.get {
        RemoveFinalizer(Crd, f);
        return;
      }
      if Definition in objects && Definition !in f.refused {
        deleting := deleting + {Definition};
      }
    }
  }
}
