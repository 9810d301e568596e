/** Status conditions of Works and WorkPlacements, written by two controllers each, with the
    shortcut that a second condition is only written when the first one changed. */
module Conditions {
  import opened Wrappers

  datatype Reason =
    | FailedToScheduleWorkloads | UnscheduledWorkloads | DestinationSelectorMismatch
    | AllWorkplacementsScheduled | WorkplacementsFailing | NowMisplaced
    | ScheduledToDestination | NowReady
    | WorkloadsFailedWrite | WorkloadsWrittenToStateStore | WorkloadsWrittenToTargetDestination

  /** `Listing` is the reason's sentence with the IDs in brackets, `Fixed` its sentence alone. */
  datatype Message = Pending | Failing | SaysMisplaced | SaysReady | Listing(ids: string) | Fixed | Verbatim(text: string)

  /** A condition of one type: absent, or status, reason and message. */
  datatype Condition = Absent | Condition(status: bool, reason: Reason, message: Message)

  // ------------------------------------------------------------------ Works

  datatype WorkConditions = WorkConditions(schedule: Condition, ready: Condition)

  /** What a writer finds out about a Work. */
  datatype WorkVerdict =
    | FailedToSchedule(group: string)
    | Unscheduled(groups: string)
    | Misplaced(groups: string)
    | AllScheduled
    | PlacementsFailing(placements: string)

  function ScheduleOf(v: WorkVerdict): Condition {
    match v
    case FailedToSchedule(g) =>
      Condition(false, FailedToScheduleWorkloads, Listing(g))
    case Unscheduled(gs) =>
      Condition(false, UnscheduledWorkloads, Listing(gs))
    case Misplaced(gs) =>
      Condition(false, DestinationSelectorMismatch, Listing(gs))
    case AllScheduled => Condition(true, AllWorkplacementsScheduled, Fixed)
    case PlacementsFailing(ps) => Condition(false, WorkplacementsFailing, Listing(ps))
  }

  function ReadyOf(v: WorkVerdict): Condition {
    match v
    case FailedToSchedule(_) => Condition(false, FailedToScheduleWorkloads, Pending)
    case Unscheduled(_) => Condition(false, UnscheduledWorkloads, Pending)
    case Misplaced(_) => Condition(false, NowMisplaced, SaysMisplaced)
    case AllScheduled => Condition(true, AllWorkplacementsScheduled, SaysReady)
    case PlacementsFailing(_) => Condition(false, WorkplacementsFailing, Failing)
  }

  /** The scheduler and the Work controller write Ready only together with a changed
      ScheduleSucceeded; only a failure to schedule always writes both. */
  function SetWork(w: WorkConditions, v: WorkVerdict): WorkConditions {
    if v.FailedToSchedule? then WorkConditions(ScheduleOf(v), ReadyOf(v))
    else if w.schedule != ScheduleOf(v) then WorkConditions(ScheduleOf(v), ReadyOf(v))
    else w
  }

  /** The Ready condition that goes with a ScheduleSucceeded reason. */
  function ReadyFor(reason: Reason): Condition {
    match reason
    case AllWorkplacementsScheduled => Condition(true, reason, SaysReady)
    case DestinationSelectorMismatch => Condition(false, NowMisplaced, SaysMisplaced)
    case WorkplacementsFailing => Condition(false, reason, Failing)
    case _ => Condition(false, reason, Pending)
  }

  predicate WorkPaired(w: WorkConditions) {
    if w.schedule.Absent? then w.ready.Absent?
    else w.ready == ReadyFor(w.schedule.reason) && w.ready.status == w.schedule.status
  }

  function SetWorkAll(w: WorkConditions, vs: seq<WorkVerdict>): WorkConditions {
    if vs == [] then w else SetWork(SetWorkAll(w, vs[..|vs| - 1]), vs[|vs| - 1])
  }

  /** Whatever sequence of verdicts either controller reached, a Work's Ready condition is a fixed
      function of its ScheduleSucceeded reason, and both conditions tell the last verdict. */
  lemma {:induction false} WorkPairing(vs: seq<WorkVerdict>)
    ensures WorkPaired(SetWorkAll(WorkConditions(Absent, Absent), vs))
    ensures vs != [] ==> SetWorkAll(WorkConditions(Absent, Absent), vs)
                         == WorkConditions(ScheduleOf(vs[|vs| - 1]), ReadyOf(vs[|vs| - 1]))
    ensures var w := SetWorkAll(WorkConditions(Absent, Absent), vs);
      w.ready.Condition? && w.ready.status <==> vs != [] && vs[|vs| - 1].AllScheduled?
  {
    if vs != [] {
      var front, v := vs[..|vs| - 1], vs[|vs| - 1];
      WorkPairing(front);
      VerdictPairs(v);
      if front != [] && ScheduleOf(front[|front| - 1]) == ScheduleOf(v) {
        VerdictPairs(front[|front| - 1]);
      }
    }
  }

  lemma VerdictPairs(v: WorkVerdict)
    ensures WorkPaired(WorkConditions(ScheduleOf(v), ReadyOf(v)))
  {
  }

  /** The ScheduleSucceeded condition tells verdicts apart. */
  lemma VerdictsDiffer(u: WorkVerdict, v: WorkVerdict)
    ensures ScheduleOf(u) == ScheduleOf(v) <==> u == v
    ensures ScheduleOf(v).Condition? && (ScheduleOf(v).status <==> v.AllScheduled?)
  {
  }

  // ------------------------------------------------------------- Placements

  datatype PlacementConditions = PlacementConditions(schedule: Condition, write: Condition, ready: Condition)

  const NoConditions := PlacementConditions(Absent, Absent, Absent)

  /** updateWorkPlacementStatus of the scheduler. */
  function SetScheduled(c: PlacementConditions, misplaced: bool): PlacementConditions {
    var schedule :=
      if misplaced then Condition(false, DestinationSelectorMismatch, Fixed)
      else Condition(true, ScheduledToDestination, Fixed);
    var ready := if misplaced then Condition(false, NowMisplaced, SaysMisplaced) else Condition(true, NowReady, SaysReady);
    if c.schedule != schedule then c.(schedule := schedule, ready := ready) else c
  }

  /** setWriteFailStatusConditions of the WorkPlacement controller. */
  function SetWriteFailed(c: PlacementConditions, message: string): PlacementConditions {
    c.(write := Condition(false, WorkloadsFailedWrite, Verbatim(message)), ready := Condition(false, WorkloadsFailedWrite, Failing))
  }

  function SetWritten(c: PlacementConditions): PlacementConditions {
    c.(write := Condition(true, WorkloadsWrittenToStateStore, Verbatim("")))
  }

  /** setWorkplacementReady: only for a placement that is written and not misplaced. */
  function SetReady(c: PlacementConditions): PlacementConditions {
    var misplaced := c.schedule.Condition? && !c.schedule.status;
    var written := c.write.Condition? && c.write.status;
    if written && !misplaced then c.(ready := Condition(true, WorkloadsWrittenToTargetDestination, SaysReady)) else c
  }

  datatype PlacementWrite = Scheduled(misplaced: bool) | WriteFailed(message: string) | Written | MarkReady

  function SetPlacement(c: PlacementConditions, w: PlacementWrite): PlacementConditions {
    match w
    case Scheduled(m) => SetScheduled(c, m)
    case WriteFailed(message) => SetWriteFailed(c, message)
    case Written => SetWritten(c)
    case MarkReady => SetReady(c)
  }

  function SetPlacementAll(c: PlacementConditions, ws: seq<PlacementWrite>): PlacementConditions {
    if ws == [] then c else SetPlacement(SetPlacementAll(c, ws[..|ws| - 1]), ws[|ws| - 1])
  }

  predicate NeverReadyMisplaced(c: PlacementConditions) {
    c.schedule.Condition? && !c.schedule.status ==> c.ready.Condition? && !c.ready.status
  }

  /** The verdict of the last scheduling write, if there was one. */
  predicate LastScheduledMisplaced(ws: seq<PlacementWrite>) {
    ws != [] &&
    var w := ws[|ws| - 1];
    if w.Scheduled? then w.misplaced else LastScheduledMisplaced(ws[..|ws| - 1])
  }

  /** In every interleaving of the two controllers' status writes, a placement whose last scheduling
      verdict was "misplaced" says ScheduleSucceeded=False and is not Ready. */
  lemma {:induction false} MisplacedNeverReady(ws: seq<PlacementWrite>)
    ensures var c := SetPlacementAll(NoConditions, ws);
      && NeverReadyMisplaced(c)
      && (LastScheduledMisplaced(ws) <==> c.schedule.Condition? && !c.schedule.status)
  {
    if ws != [] {
      MisplacedNeverReady(ws[..|ws| - 1]);
    }
  }

  // ------------------------------------------------------------------ Ready

  function LastVerdict(ws: seq<PlacementWrite>): Option<bool> {
    if ws == [] then None
    else if ws[|ws| - 1].Scheduled? then Some(ws[|ws| - 1].misplaced)
    else LastVerdict(ws[..|ws| - 1])
  }

  /** Whether the last attempt to write the workloads went well. */
  function LastWrite(ws: seq<PlacementWrite>): Option<bool> {
    if ws == [] then None
    else if ws[|ws| - 1].Written? then Some(true)
    else if ws[|ws| - 1].WriteFailed? then Some(false)
    else LastWrite(ws[..|ws| - 1])
  }

  /** A verdict that the one before it was not. */
  predicate Changes(ws: seq<PlacementWrite>, k: nat)
    requires k < |ws|
  {
    ws[k].Scheduled? && LastVerdict(ws[..k]) != Some(ws[k].misplaced)
  }

  /** What makes a placement Ready: a change of the verdict to "scheduled", or the report of its
      controller that it is written and not misplaced. */
  predicate Grants(ws: seq<PlacementWrite>, k: nat)
    requires k < |ws|
  {
    || (Changes(ws, k) && !ws[k].misplaced)
    || (ws[k].MarkReady? && LastWrite(ws[..k]) == Some(true) && LastVerdict(ws[..k]) != Some(true))
  }

  /** What ends that: a change to "misplaced", or a failed write. */
  predicate Revokes(ws: seq<PlacementWrite>, k: nat)
    requires k < |ws|
  {
    (Changes(ws, k) && ws[k].misplaced) || ws[k].WriteFailed?
  }

  predicate IsReady(c: PlacementConditions) {
    c.ready.Condition? && c.ready.status
  }

  /** Two of the conditions tell the last verdict and the last write. */
  lemma {:induction false} ConditionsTrack(ws: seq<PlacementWrite>)
    ensures var c := SetPlacementAll(NoConditions, ws);
      && c.schedule == (match LastVerdict(ws)
           case None => Absent
           case Some(true) => Condition(false, DestinationSelectorMismatch, Fixed)
           case Some(false) => Condition(true, ScheduledToDestination, Fixed))
      && (LastWrite(ws).None? <==> c.write.Absent?)
      && (LastWrite(ws).Some? ==> c.write.Condition? && c.write.status == LastWrite(ws).value)
  {
    if ws != [] {
      ConditionsTrack(ws[..|ws| - 1]);
    }
  }

  /** In every interleaving of the two controllers' status writes a placement is Ready if and only if
      something has made it so and nothing later has ended that. */
  lemma {:induction false} ReadyIff(ws: seq<PlacementWrite>)
    ensures IsReady(SetPlacementAll(NoConditions, ws)) <==>
      exists k :: 0 <= k < |ws| && Grants(ws, k) && forall j :: k < j < |ws| ==> !Revokes(ws, j)
  {
    if ws != [] {
      var front, last := ws[..|ws| - 1], |ws| - 1;
      ReadyIff(front);
      forall k | 0 <= k < last
        ensures Grants(ws, k) == Grants(front, k) && Revokes(ws, k) == Revokes(front, k)
      {
        assert front[..k] == ws[..k] && front[k] == ws[k];
      }
      LastDecides(ws);
      if !Grants(ws, last) && !Revokes(ws, last) && IsReady(SetPlacementAll(NoConditions, front)) {
        var k :| 0 <= k < |front| && Grants(front, k) && forall j :: k < j < |front| ==> !Revokes(front, j);
        assert Grants(ws, k);
      }
    }
  }

  /** The last write makes the placement Ready, ends that, or leaves it as it was. */
  lemma LastDecides(ws: seq<PlacementWrite>)
    requires ws != []
    ensures var last := |ws| - 1;
      IsReady(SetPlacementAll(NoConditions, ws)) <==>
        Grants(ws, last) || (!Revokes(ws, last) && IsReady(SetPlacementAll(NoConditions, ws[..last])))
  {
    ConditionsTrack(ws[..|ws| - 1]);
  }

  /** So after a failed write, and before the next attempt, the placement is Ready again exactly when
      the scheduler has changed its verdict since and the last one is "scheduled". */
  lemma {:induction false} ReadyAfterFailedWriteIff(ws: seq<PlacementWrite>, k: nat)
    requires k < |ws| && ws[k].WriteFailed? && forall j :: k < j < |ws| ==> ws[j].Scheduled? || ws[j].MarkReady?
    ensures IsReady(SetPlacementAll(NoConditions, ws)) <==>
      LastVerdict(ws) == Some(false) && exists j :: k < j < |ws| && Changes(ws, j)
    ensures LastWrite(ws) == Some(false)
    decreases |ws|
  {
    var front, last := ws[..|ws| - 1], |ws| - 1;
    ConditionsTrack(front);
    if k < last {
      ReadyAfterFailedWriteIff(front, k);
      forall j | 0 <= j < last
        ensures Changes(ws, j) == Changes(front, j)
      {
        assert front[..j] == ws[..j] && front[j] == ws[j];
      }
      assert (exists j :: k < j < |ws| && Changes(ws, j)) <==> Changes(ws, last) || exists j :: k < j < |front| && Changes(front, j);
    }
  }

  /** For instance: a misplaced placement whose write fails, once its destination matches again. */
  lemma FailedWriteLooksReady(message: string)
    ensures var c := SetPlacementAll(NoConditions, [Scheduled(true), WriteFailed(message), Scheduled(false)]);
      IsReady(c) && c.write.Condition? && !c.write.status
  {
    var ws := [Scheduled(true), WriteFailed(message), Scheduled(false)];
    assert ws[..2] == [Scheduled(true), WriteFailed(message)] && ws[..2][..1] == [Scheduled(true)] && ws[..1][..0] == [];
    assert LastVerdict(ws[..2]) == LastVerdict(ws[..2][..1]) == Some(true);
    assert Changes(ws, 2);
    ReadyAfterFailedWriteIff(ws, 1);
    ConditionsTrack(ws);
  }
}
