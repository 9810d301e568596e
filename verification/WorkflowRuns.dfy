/** Whole runs of the configure workflow: reconciles interleaved with Job progress, spec
    changes, manual triggers and status writes, any API write of a reconcile failing. */
module WorkflowRuns {
  import opened Workflow

  /** The pipeline list is a function of the spec hash. */
  datatype Config = Config(catalog: string -> seq<JobLabels>, keep: nat, skipConditions: bool)

  /** What the admission webhook and the manager's configuration guarantee. */
  ghost predicate ValidConfig(c: Config) {
    && c.keep >= 1
    && (forall h, i :: 0 <= i < |c.catalog(h)| ==> c.catalog(h)[i].resourceHash == h)
    && (forall h, i, j :: 0 <= i < j < |c.catalog(h)| ==>
          c.catalog(h)[i].pipelineName != c.catalog(h)[j].pipelineName)
  }

  datatype Event =
    | Reconcile(faults: Faults)
    | JobProgress(job: nat, active: nat, conditions: seq<JobCondition>)
    | SpecChange(hash: string)
    | SetManual(manual: bool)
    | SetCompleted(completed: ConditionStatus)
    | SetWorks(works: seq<string>)

  /** A finished Job never changes again. */
  predicate Enabled(s: State, e: Event) {
    e.JobProgress? ==> e.job < |s.history| && IsRunning(s.history[e.job])
  }

  function Reconciled(c: Config, s: State, f: Faults): Outcome {
    Configure(s, c.catalog(s.hash), c.keep, c.skipConditions, f)
  }

  function Step(c: Config, s: State, e: Event): State
    requires Enabled(s, e)
  {
    match e
    case Reconcile(f) => Reconciled(c, s, f).state
    case JobProgress(i, active, conditions) =>
      s.(history := s.history[i := s.history[i].(active := active, conditions := conditions)])
    case SpecChange(h) => s.(hash := h)
    case SetManual(m) => s.(manual := m)
    case SetCompleted(v) => s.(completed := v)
    case SetWorks(works) => s.(works := works)
  }

  ghost predicate Legal(c: Config, s: State, events: seq<Event>)
    decreases |events|
  {
    events == [] || (Enabled(s, events[0]) && Legal(c, Step(c, s, events[0]), events[1..]))
  }

  function After(c: Config, s: State, events: seq<Event>): State
    requires Legal(c, s, events)
    decreases |events|
  {
    if events == [] then s else After(c, Step(c, s, events[0]), events[1..])
  }

  /** A parent object no Job has been created for yet. */
  predicate Initial(s: State) {
    s.history == [] && s.failed == -1 && s.succeeded == -1
  }

  // ------------------------------------------------------------- invariant

  function Last(h: seq<Job>): Job
    requires h != []
  {
    h[|h| - 1]
  }

  /** The place of a Job's pipeline in the list its hash stands for. */
  function Pos(c: Config, job: Job): int {
    MatchIndex(c.catalog(job.labels.resourceHash), job.labels)
  }

  predicate Follows(c: Config, a: Job, b: Job) {
    && a.labels.resourceHash == b.labels.resourceHash
    && Pos(c, a) + 1 == Pos(c, b)
    && Succeeded(a)
  }

  predicate InPlace(c: Config, h: seq<Job>, k: nat)
    requires k < |h|
  {
    Pos(c, h[k]) >= 0 && (Pos(c, h[k]) > 0 ==> k > 0 && Follows(c, h[k - 1], h[k]))
  }

  predicate Ordered(c: Config, h: seq<Job>) {
    forall k :: 0 <= k < |h| ==> InPlace(c, h, k)
  }

  predicate OneRunning(h: seq<Job>) {
    forall k :: 0 <= k < |h| - 1 ==> !IsRunning(h[k])
  }

  predicate Inv(c: Config, s: State) {
    && (s.history != [] ==> !Last(s.history).deleted)
    && OneRunning(s.history)
    && Ordered(c, s.history)
    && FailureSeen(s)
  }

  /** A recorded failure is the newest Job's. */
  predicate FailureSeen(s: State) {
    && -1 <= s.failed <= 1
    && (s.failed == 1 ==> s.history != [] && !IsRunning(Last(s.history)) && IsFailed(Last(s.history)))
  }

  /** Deletion marks are all that tells `b` from `a`. */
  predicate SameButMarks(a: seq<Job>, b: seq<Job>) {
    && |a| == |b|
    && forall k :: 0 <= k < |a| ==> b[k] == a[k].(deleted := b[k].deleted)
  }

  lemma CleanupKeepsHistory(h: seq<Job>, pipelines: seq<JobLabels>, keep: nat, deletable: nat)
    requires keep >= 1
    ensures SameButMarks(h, Cleanup(h, pipelines, keep, deletable))
    ensures h != [] && !Last(h).deleted ==> !Last(Cleanup(h, pipelines, keep, deletable)).deleted
    decreases |pipelines|
  {
    if pipelines != [] {
      CleanupKeepsHistory(MarkExpired(h, pipelines[0].pipelineName, keep, deletable), pipelines[1..], keep, deletable);
    }
  }

  lemma OrderedUpToStatus(c: Config, a: seq<Job>, b: seq<Job>)
    requires Ordered(c, a) && |a| == |b|
    requires forall k :: 0 <= k < |a| ==> b[k].labels == a[k].labels && (Succeeded(a[k]) ==> Succeeded(b[k]))
    ensures Ordered(c, b)
  {
    forall k | 0 <= k < |b|
      ensures InPlace(c, b, k)
    {
      assert InPlace(c, a, k);
    }
  }

  /** What a reconcile does to the history: nothing, a suspension of the newest Job, a cleanup,
      or one new Job, which starts at pipeline 0 or continues the newest Job's block. */
  ghost predicate Extends(c: Config, h: seq<Job>, h': seq<Job>) {
    || h' == h
    || (h != [] && h' == h[..|h| - 1] + [Last(h).(suspend := true)])
    || (SameButMarks(h, h') && (h != [] ==> !Last(h').deleted))
    || (exists p :: h' == h + [NewJob(p)] && Starts(c, h, p))
  }

  ghost predicate Starts(c: Config, h: seq<Job>, p: JobLabels) {
    && Pos(c, NewJob(p)) >= 0
    && (h != [] ==> !IsRunning(Last(h)))
    && (Pos(c, NewJob(p)) > 0 ==> h != [] && Follows(c, Last(h), NewJob(p)))
  }

  lemma PosOfEntry(c: Config, hash: string, i: nat)
    requires ValidConfig(c) && i < |c.catalog(hash)|
    ensures Pos(c, NewJob(c.catalog(hash)[i])) == i
    ensures MatchIndex(c.catalog(hash), c.catalog(hash)[i]) == i
  {
    assert c.catalog(hash)[i].resourceHash == hash;
    var m := MatchIndex(c.catalog(hash), c.catalog(hash)[i]);
    assert c.catalog(hash)[m].pipelineName == c.catalog(hash)[i].pipelineName;
  }

  /** A Job may start where the decision says so. */
  lemma StartsWhereDecided(c: Config, s: State, i: nat)
    requires ValidConfig(c) && Inv(c, s) && i < |c.catalog(s.hash)|
    requires Decide(c.catalog(s.hash), MostRecent(s.history), s.manual) == Start(i)
    ensures Starts(c, s.history, c.catalog(s.hash)[i])
  {
    DecideMeans(c.catalog(s.hash), MostRecent(s.history), s.manual);
    PosOfEntry(c, s.hash, i);
    if i > 0 {
      PosOfEntry(c, s.hash, i - 1);
    }
  }

  lemma ReconcileExtends(c: Config, s: State, f: Faults)
    requires ValidConfig(c) && Inv(c, s)
    ensures Extends(c, s.history, Reconciled(c, s, f).state.history)
  {
    var ps, newest := c.catalog(s.hash), MostRecent(s.history);
    HistoryAfter(s, ps, c.keep, c.skipConditions, f);
    if Reconciled(c, s, f).state.history != s.history {
      match Decide(ps, newest, s.manual)
      case Start(i) => StartsWhereDecided(c, s, i);
      case Finish => CleanupKeepsHistory(s.history, ps, c.keep, f.deletable);
      case _ =>
    }
  }

  /** What one call may do to the Jobs, by what it decided. */
  lemma HistoryAfter(s: State, ps: seq<JobLabels>, keep: nat, skipConditions: bool, f: Faults)
    ensures var h, r := s.history, Configure(s, ps, keep, skipConditions, f).state.history;
      r == h || match Decide(ps, MostRecent(h), s.manual)
        case Start(i) => i < |ps| && r == h + [NewJob(ps[i])]
        case Suspend => r == SuspendNewest(h)
        case Finish => r == Cleanup(h, ps, keep, f.deletable)
        case _ => false
  {
  }

  lemma FailureCountKept(c: Config, s: State, f: Faults)
    requires ValidConfig(c) && Inv(c, s)
    ensures FailureSeen(Reconciled(c, s, f).state)
  {
    var ps, newest := c.catalog(s.hash), MostRecent(s.history);
    DecideMeans(ps, newest, s.manual);
    match Decide(ps, newest, s.manual)
    case Finish => CleanupKeepsHistory(s.history, ps, c.keep, f.deletable);
    case _ =>
  }

  lemma ExtendsKeepsOrder(c: Config, h: seq<Job>, h': seq<Job>)
    requires Ordered(c, h) && OneRunning(h) && (h != [] ==> !Last(h).deleted) && Extends(c, h, h')
    ensures Ordered(c, h') && OneRunning(h') && (h' != [] ==> !Last(h').deleted)
  {
    if exists p :: h' == h + [NewJob(p)] && Starts(c, h, p) {
      assert forall k :: 0 <= k < |h| ==> InPlace(c, h, k) ==> InPlace(c, h', k);
    } else {
      OrderedUpToStatus(c, h, h');
    }
  }

  lemma StepKeepsInv(c: Config, s: State, e: Event)
    requires ValidConfig(c) && Inv(c, s) && Enabled(s, e)
    ensures Inv(c, Step(c, s, e))
  {
    match e
    case Reconcile(f) =>
      ReconcileExtends(c, s, f);
      FailureCountKept(c, s, f);
      ExtendsKeepsOrder(c, s.history, Step(c, s, e).history);
    case JobProgress(i, active, conditions) =>
      OrderedUpToStatus(c, s.history, Step(c, s, e).history);
    case _ =>
  }

  lemma {:induction false} RunKeepsInv(c: Config, s: State, events: seq<Event>)
    requires ValidConfig(c) && Inv(c, s) && Legal(c, s, events)
    ensures Inv(c, After(c, s, events))
    decreases |events|
  {
    if events != [] {
      StepKeepsInv(c, s, events[0]);
      RunKeepsInv(c, Step(c, s, events[0]), events[1..]);
    }
  }

  // ------------------------------------------------------ mutual exclusion

  /** In every reachable state at most one Job runs, and it is the newest one ever created. */
  lemma MutualExclusion(c: Config, s: State, events: seq<Event>)
    requires ValidConfig(c) && Initial(s) && Legal(c, s, events)
    ensures var h := After(c, s, events).history;
      forall k :: 0 <= k < |h| && IsRunning(h[k]) ==> k == |h| - 1 && !h[k].deleted
  {
    RunKeepsInv(c, s, events);
  }

  // --------------------------------------------------------- run structure

  function Flatten(blocks: seq<seq<Job>>): seq<Job> {
    if blocks == [] then [] else Flatten(blocks[..|blocks| - 1]) + blocks[|blocks| - 1]
  }

  /** Pipelines 0, 1, 2, ... of one hash; every Job but the last one succeeded. */
  predicate IsBlock(c: Config, b: seq<Job>) {
    && b != []
    && (forall k :: 0 <= k < |b| ==> b[k].labels.resourceHash == b[0].labels.resourceHash)
    && |b| <= |c.catalog(b[0].labels.resourceHash)|
    && (forall k :: 0 <= k < |b| ==> b[k].labels == c.catalog(b[0].labels.resourceHash)[k])
    && (forall k :: 0 <= k < |b| - 1 ==> Succeeded(b[k]))
  }

  function SplitBlocks(c: Config, h: seq<Job>): seq<seq<Job>> {
    if h == [] then []
    else
      var rest := SplitBlocks(c, h[..|h| - 1]);
      if Pos(c, Last(h)) == 0 || rest == [] then rest + [[Last(h)]]
      else rest[..|rest| - 1] + [rest[|rest| - 1] + [Last(h)]]
  }

  lemma {:induction false} SplitIsBlocks(c: Config, h: seq<Job>)
    requires Ordered(c, h)
    ensures Splits(c, h, SplitBlocks(c, h))
  {
    if h != [] {
      var front, last := h[..|h| - 1], Last(h);
      FrontOrdered(c, h);
      SplitIsBlocks(c, front);
      assert h == front + [last];
      if Pos(c, last) == 0 {
        StartBlock(c, front, SplitBlocks(c, front), last);
      } else {
        ExtendBlock(c, front, SplitBlocks(c, front), last);
      }
    }
  }

  lemma FrontOrdered(c: Config, h: seq<Job>)
    requires Ordered(c, h) && h != []
    ensures var front, last := h[..|h| - 1], Last(h);
      Ordered(c, front) && Pos(c, last) >= 0 && (Pos(c, last) > 0 ==> front != [] && Follows(c, Last(front), last))
  {
    var front := h[..|h| - 1];
    forall k | 0 <= k < |front|
      ensures InPlace(c, front, k)
    {
      assert InPlace(c, h, k);
    }
    assert InPlace(c, h, |h| - 1);
  }

  /** `blocks` flattens to `h`, and its last block ends where `h` does. */
  ghost predicate Splits(c: Config, h: seq<Job>, blocks: seq<seq<Job>>) {
    && Flatten(blocks) == h
    && (forall k :: 0 <= k < |blocks| ==> IsBlock(c, blocks[k]))
    && (h != [] ==> blocks != [] && EndsAt(c, blocks[|blocks| - 1], Last(h)))
  }

  predicate EndsAt(c: Config, b: seq<Job>, job: Job) {
    b != [] && Last(b) == job && |b| == Pos(c, job) + 1
  }

  lemma StartBlock(c: Config, h: seq<Job>, blocks: seq<seq<Job>>, job: Job)
    requires Splits(c, h, blocks) && Pos(c, job) == 0
    ensures Splits(c, h + [job], blocks + [[job]])
  {
    var more := blocks + [[job]];
    assert more[..|more| - 1] == blocks;
    assert IsBlock(c, [job]);
  }

  lemma ExtendBlock(c: Config, h: seq<Job>, blocks: seq<seq<Job>>, job: Job)
    requires Splits(c, h, blocks) && h != [] && Follows(c, Last(h), job) && Pos(c, job) > 0
    ensures Splits(c, h + [job], blocks[..|blocks| - 1] + [blocks[|blocks| - 1] + [job]])
  {
    var front, b := blocks[..|blocks| - 1], blocks[|blocks| - 1];
    var more := front + [b + [job]];
    assert more[..|more| - 1] == front;
    assert Flatten(more) == Flatten(front) + (b + [job]);
    assert Flatten(blocks) == Flatten(front) + b;
    assert IsBlock(c, b + [job]) by {
      assert b[|b| - 1].labels.resourceHash == job.labels.resourceHash;
      assert job.labels == c.catalog(job.labels.resourceHash)[Pos(c, job)];
      assert forall k :: 0 <= k < |b| ==> (b + [job])[k] == b[k];
    }
  }

  /** The history of every run, in creation order, is a sequence of blocks: one hash per block,
      pipelines from 0 upwards without gaps, and a success before every continuation. */
  lemma RunStructure(c: Config, s: State, events: seq<Event>)
    requires ValidConfig(c) && Initial(s) && Legal(c, s, events)
    ensures var h := After(c, s, events).history;
      exists blocks :: Flatten(blocks) == h && forall b :: b in blocks ==> IsBlock(c, b)
  {
    RunKeepsInv(c, s, events);
    var h := After(c, s, events).history;
    SplitIsBlocks(c, h);
    assert Flatten(SplitBlocks(c, h)) == h;
  }

  /** A Job that continues a block is created only in a state where its predecessor, the newest
      Job, had already succeeded; any other new Job starts pipeline 0, and none is created while
      a Job runs. */
  lemma CreationWaits(c: Config, s: State, events: seq<Event>, f: Faults)
    requires ValidConfig(c) && Initial(s) && Legal(c, s, events)
    requires |Reconciled(c, After(c, s, events), f).state.history| > |After(c, s, events).history|
    ensures var h, h' := After(c, s, events).history, Reconciled(c, After(c, s, events), f).state.history;
      && h' == h + [Last(h')]
      && (h != [] ==> !IsRunning(Last(h)))
      && Last(h').labels.resourceHash == After(c, s, events).hash
      && (Pos(c, Last(h')) == 0 || (h != [] && Follows(c, Last(h), Last(h'))))
  {
    RunKeepsInv(c, s, events);
    NewJobFits(c, After(c, s, events), f);
  }

  lemma NewJobFits(c: Config, s: State, f: Faults)
    requires ValidConfig(c) && Inv(c, s)
    requires |Reconciled(c, s, f).state.history| > |s.history|
    ensures var h, h' := s.history, Reconciled(c, s, f).state.history;
      && h' == h + [Last(h')]
      && (h != [] ==> !IsRunning(Last(h)))
      && Last(h').labels.resourceHash == s.hash
      && (Pos(c, Last(h')) == 0 || (h != [] && Follows(c, Last(h), Last(h'))))
  {
    var ps, newest := c.catalog(s.hash), MostRecent(s.history);
    DecideMeans(ps, newest, s.manual);
    match Decide(ps, newest, s.manual)
    case Start(i) =>
      ReconcileExtends(c, s, f);
    case Finish => CleanupKeepsHistory(s.history, ps, c.keep, f.deletable);
    case _ =>
  }
}
