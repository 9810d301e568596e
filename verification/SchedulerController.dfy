/** The scheduler's loops over the WorkPlacement objects, proved against `Scheduler`. */
module SchedulerController {
  import opened Wrappers
  import opened Selectors
  import opened Conditions
  import opened Scheduler
  import opened SchedulerReports

  /** Which calls to the API server fail: listing the placements of a group or of the whole Work,
      creating, updating or deleting a placement, updating a placement's status, updating the Work's. */
  datatype SchedulerFaults = SchedulerFaults(
    lists: set<string>,
    listAll: bool,
    refused: set<Name>,
    mute: set<Name>,
    status: bool)

  predicate NoFaults(f: SchedulerFaults) {
    f == SchedulerFaults({}, false, {}, {}, false)
  }

  /** From consistent placements and conditions the pass ends with conditions and a counter that tell
      what the placements then show. */
  ghost predicate Reported(before: Placements, told: WorkConditions, ps: Placements, tell: WorkConditions, created: int,
                           dests: seq<Destination>, w: Work)
  {
    Named(before) && DistinctGroups(w.groups) && WorkPaired(told) ==>
      Tells(tell, ps, dests, w) && created == |w.groups| - |Homeless(ps, w)|
  }

  lemma Finished(before: Placements, dests: seq<Destination>, w: Work, roll: string -> nat, told: WorkConditions, tell: WorkConditions, created: int)
    requires WorkPass(before, dests, w, roll).Passed?
    requires var r := WorkPass(before, dests, w, roll);
      tell == SetWork(told, VerdictOf(r.unscheduled, r.misplaced)) && created == |w.groups| - |r.unscheduled|
    ensures Reported(before, told, WorkPass(before, dests, w, roll).placements, tell, created, dests, w)
  {
    if Named(before) && DistinctGroups(w.groups) && WorkPaired(told) {
      WorkReport(before, dests, w, roll, told);
    }
  }

  /** The groups before `i` can be scheduled, and `i` cannot. */
  ghost predicate FirstFailing(ps: Placements, dests: seq<Destination>, w: Work, roll: string -> nat, i: int) {
    && 0 <= i < |w.groups|
    && var r := GroupsPass(ps, w.groups[..i], PassOf(dests, w, roll));
      r.Passed? && GroupPass(r.placements, dests, w, w.groups[i], roll(w.groups[i].id)).Failed?
  }

  /** What one group's pass may come to: some part of it, and with a status all of it; without
      failures there is a status unless the API server refuses a placement. */
  ghost predicate GroupOutcome(ps: Placements, dests: seq<Destination>, w: Work, g: Group, roll: nat, clean: bool,
                               end: Placements, status: Option<GroupStatus>, refused: set<Name>, mute: set<Name>)
  {
    && end == CutPass(ps, dests, w, g, roll, refused, mute)
    && (status.Some? ==> GroupPass(ps, dests, w, g, roll) == Done(end, status.value))
    && (clean ==> (status.Some? <==> GroupPass(ps, dests, w, g, roll).Done?))
    && GroupFramed(ps, end, w.name, g.id)
  }

  /** The same for the branch that goes by a map of targets. */
  ghost predicate Placed(ps: Placements, w: Work, g: Group, targets: map<string, bool>, clean: bool,
                         end: Placements, status: Option<GroupStatus>, refused: set<Name>, mute: set<Name>)
  {
    && end == ApplySome(ps, w.name, g, targets, refused, mute)
    && (status == Some(NoTarget) <==> targets == map[])
    && (status.Some? ==> forall t :: t in targets ==> !Refuses(ps, Name(w.name, t, g.id)))
    && (status.Some? && targets == map[] ==> end == ps)
    && (status.Some? && targets != map[] ==>
          && end == ApplyAll(ps, w.name, g, targets)
          && status.value == if exists t :: t in targets && targets[t] then OffTarget else OnTarget)
    && (clean && (forall t :: t in targets ==> !Refuses(ps, Name(w.name, t, g.id))) ==> status.Some?)
  }

  class WorkScheduler {
    var placements: Placements
    var conditions: WorkConditions
    var workPlacements: int
    var workPlacementsCreated: int

    constructor (placements: Placements, conditions: WorkConditions)
      ensures this.placements == placements && this.conditions == conditions
      ensures workPlacements == 0 && workPlacementsCreated == 0
    {
      this.placements, this.conditions := placements, conditions;
      workPlacements, workPlacementsCreated := 0, 0;
    }

    /** ReconcileWork.  A group that cannot be scheduled ends the pass.  `finished` tells a complete
        pass from every other way out. */
    method ReconcileWork(dests: seq<Destination>, w: Work, roll: string -> nat, f: SchedulerFaults)
      returns (finished: bool, unscheduled: seq<string>, ghost cuts: seq<Cut>)
      modifies this
      ensures finished ==>
        var r := WorkPass(old(placements), dests, w, roll);
        && r.Passed? && placements == r.placements && unscheduled == r.unscheduled
        && workPlacements == |w.groups| && workPlacementsCreated == |w.groups| - |r.unscheduled|
        && conditions == SetWork(old(conditions), VerdictOf(r.unscheduled, r.misplaced))
      ensures finished ==> Reported(old(placements), old(conditions), placements, conditions, workPlacementsCreated, dests, w)
      ensures NoFaults(f) ==> (finished <==> WorkPass(old(placements), dests, w, roll).Passed?)
      ensures NoFaults(f) && !finished ==> unscheduled == []
      ensures NoFaults(f) && !finished ==>
        exists i :: FirstFailing(old(placements), dests, w, roll, i) && conditions == SetWork(old(conditions), FailedToSchedule(w.groups[i].id))
      ensures CutsOf(w, cuts) && placements == CutAll(old(placements), dests, w, cuts)
      ensures WorkFramed(old(placements), placements, w.name)
      ensures !finished && conditions != old(conditions) ==>
        || (exists i :: 0 <= i < |w.groups| && conditions == SetWork(old(conditions), FailedToSchedule(w.groups[i].id)))
        || var r := GroupsPass(old(placements), w.groups, PassOf(dests, w, roll));
             r.Passed? && conditions == SetWork(old(conditions), VerdictOf(r.unscheduled, r.misplaced))
    {
      ghost var before, told := placements, conditions;
      var failed, misplaced;
      failed, unscheduled, misplaced, cuts := ReconcileGroups(dests, w, roll, f);
      CutAllIsFramed(before, dests, w, cuts);
      if failed.Some? {
        if !f.status {
          conditions := SetWork(conditions, FailedToSchedule(failed.value));
        }
        return false, [], cuts;
      }
      var ok := UpdateWorkStatus(w, unscheduled, misplaced, f);
      if !ok {
        return false, [], cuts;
      }
      ghost var names;
      ok, names := CleanupDanglingWorkplacements(w, f);
      OneMoreCut(before, dests, w, cuts, DropCut(names));
      cuts := cuts + [DropCut(names)];
      CutAllIsFramed(before, dests, w, cuts);
      if ok {
        Finished(before, dests, w, roll, told, conditions, workPlacementsCreated);
      }
      return ok, unscheduled, cuts;
    }

    /** The groups in list order, until one cannot be scheduled. */
    method ReconcileGroups(dests: seq<Destination>, w: Work, roll: string -> nat, f: SchedulerFaults)
      returns (failed: Option<string>, unscheduled: seq<string>, misplaced: seq<string>, ghost cuts: seq<Cut>)
      modifies this`placements
      ensures CutsOf(w, cuts) && placements == CutAll(old(placements), dests, w, cuts)
      ensures failed.None? ==>
        GroupsPass(old(placements), w.groups, PassOf(dests, w, roll)) == Passed(placements, unscheduled, misplaced)
      ensures failed.Some? ==> exists i :: 0 <= i < |w.groups| && failed == Some(w.groups[i].id)
      ensures NoFaults(f) && failed.Some? ==>
        && GroupsPass(old(placements), w.groups, PassOf(dests, w, roll)).Aborted?
        && exists i :: FirstFailing(old(placements), dests, w, roll, i) && failed == Some(w.groups[i].id)
    {
      ghost var pass := PassOf(dests, w, roll);
      ghost var before := placements;
      unscheduled, misplaced := [], [];
      cuts := [];
      var i := 0;
      while i < |w.groups|
        invariant 0 <= i <= |w.groups|
        invariant CutsOf(w, cuts) && placements == CutAll(before, dests, w, cuts)
        invariant GroupsPass(before, w.groups[..i], pass) == Passed(placements, unscheduled, misplaced)
      {
        var g := w.groups[i];
        var status;
        ghost var refused, mute;
        status, refused, mute := ReconcileWorkloadGroup(dests, w, g, roll(g.id), f);
        OneMoreGroup(before, w.groups, pass, i);
        OneMoreCut(before, dests, w, cuts, GroupCut(g, roll(g.id), refused, mute));
        cuts := cuts + [GroupCut(g, roll(g.id), refused, mute)];
        if status.None? {
          if NoFaults(f) {
            AbortedForGood(before, w.groups, pass, i + 1);
            assert FirstFailing(before, dests, w, roll, i);
          }
          return Some(g.id), [], [], cuts;
        }
        match status.value {
          case NoTarget => unscheduled := unscheduled + [g.id];
          case OffTarget => misplaced := misplaced + [g.id];
          case OnTarget =>
        }
        i := i + 1;
      }
      assert w.groups[..i] == w.groups;
      failed := None;
    }

    /** One status update for counters and conditions, and none if nothing changed. */
    method UpdateWorkStatus(w: Work, unscheduled: seq<string>, misplaced: seq<string>, f: SchedulerFaults) returns (ok: bool)
      modifies this`workPlacements, this`workPlacementsCreated, this`conditions
      ensures ok ==> workPlacements == |w.groups| && workPlacementsCreated == |w.groups| - |unscheduled|
      ensures ok ==> conditions == SetWork(old(conditions), VerdictOf(unscheduled, misplaced))
      ensures !ok ==> conditions == old(conditions) && f.status
    {
      var created := |w.groups| - |unscheduled|;
      var verdict := VerdictOf(unscheduled, misplaced);
      if workPlacements != |w.groups| || workPlacementsCreated != created || conditions.schedule != ScheduleOf(verdict) {
        if f.status {
          return false;
        }
        workPlacements, workPlacementsCreated := |w.groups|, created;
        if conditions.schedule != ScheduleOf(verdict) {
          conditions := WorkConditions(ScheduleOf(verdict), ReadyOf(verdict));
        }
      }
      return true;
    }

    method ReconcileWorkloadGroup(dests: seq<Destination>, w: Work, g: Group, roll: nat, f: SchedulerFaults)
      returns (status: Option<GroupStatus>, ghost refused: set<Name>, ghost mute: set<Name>)
      modifies this`placements
      ensures GroupOutcome(old(placements), dests, w, g, roll, NoFaults(f), placements, status, refused, mute)
    {
      ghost var before := placements;
      if g.id in f.lists {
        refused := NothingReached(before, dests, w, g, roll);
        NoOutcome(before, dests, w, g, roll, refused);
        return None, refused, {};
      }
      var existing := Existing(placements, w.name, g.id);
      if w.resource && existing != {} {
        var misplaced, errored := UpdateWorkPlacements(existing, g, Allowed(dests, g), f);
        status := if errored then None else Some(if misplaced then OffTarget else OnTarget);
        UpdateOutcome(before, dests, w, g, roll, NoFaults(f), placements, status, f.refused, f.mute);
        return status, f.refused, f.mute;
      }
      var chosen := Chosen(EligibleNames(dests, Resolve(g.selectors)), w.resource, roll);
      status, refused, mute := Place(w, g, chosen, f);
      PlaceOutcome(before, dests, w, g, roll, NoFaults(f), placements, status, refused, mute);
    }

    /** Puts a group on the chosen destinations and on those it has. */
    method Place(w: Work, g: Group, chosen: set<string>, f: SchedulerFaults)
      returns (status: Option<GroupStatus>, ghost refused: set<Name>, ghost mute: set<Name>)
      modifies this`placements
      ensures Placed(old(placements), w, g, TargetMap(old(placements), w.name, g.id, chosen), NoFaults(f), placements, status, refused, mute)
    {
      var targets := TargetMap(placements, w.name, g.id, chosen);
      if targets == map[] {
        UncutApply(placements, w, g, targets);
        return Some(NoTarget), {}, {};
      }
      var ok, misplaced;
      ok, misplaced, refused, mute := ApplyTargets(w, g, targets, f);
      return if ok then Some(if misplaced then OffTarget else OnTarget) else None, refused, mute;
    }

    /** Goes on past failing updates, and reports them at the end. */
    method UpdateWorkPlacements(existing: set<Name>, g: Group, allowed: set<string>, f: SchedulerFaults)
      returns (misplaced: bool, errored: bool)
      requires existing <= placements.Keys
      modifies this`placements
      ensures placements == UpdateSome(old(placements), existing, g, allowed, f.refused, f.mute)
      ensures errored <==> existing * (f.refused + f.mute) != {}
      ensures !errored ==> placements == UpdateAll(old(placements), existing, g, allowed)
      ensures !errored ==> (misplaced <==> exists n :: n in existing && old(placements)[n].target !in allowed)
    {
      ghost var before := placements;
      var todo := existing;
      misplaced, errored := false, false;
      UpdateNone(before, g, allowed, f.refused, f.mute);
      while todo != {}
        invariant todo <= existing <= before.Keys
        invariant placements == UpdateSome(before, existing - todo, g, allowed, f.refused, f.mute)
        invariant errored <==> (existing - todo) * (f.refused + f.mute) != {}
        invariant !errored ==> (misplaced <==> exists n :: n in existing - todo && before[n].target !in allowed)
        decreases todo
      {
        var n :| n in todo;
        var off := placements[n].target !in allowed;
        UpdateOneMore(before, existing - todo, g, allowed, f.refused, f.mute, n);
        assert existing - (todo - {n}) == (existing - todo) + {n};
        if n !in f.refused {
          placements := placements[n := UpdatedPart(placements[n], g, off, n in f.mute)];
        }
        if n in f.refused || n in f.mute {
          assert n in (existing - (todo - {n})) * (f.refused + f.mute);
          errored := true;
        } else {
          assert (existing - (todo - {n})) * (f.refused + f.mute) == (existing - todo) * (f.refused + f.mute);
          misplaced := misplaced || off;
        }
        todo := todo - {n};
      }
      assert existing - todo == existing;
      if !errored {
        assert forall n :: n in existing ==> n !in existing * (f.refused + f.mute);
        UpdateEvery(before, existing, g, allowed, f.refused, f.mute);
      }
    }

    /** Creates or updates one placement per target, in any order, until a call fails. */
    method ApplyTargets(w: Work, g: Group, targets: map<string, bool>, f: SchedulerFaults)
      returns (ok: bool, misplaced: bool, ghost refused: set<Name>, ghost mute: set<Name>)
      modifies this`placements
      ensures placements == ApplySome(old(placements), w.name, g, targets, refused, mute)
      ensures ok ==> forall t :: t in targets ==> !Refuses(old(placements), Name(w.name, t, g.id))
      ensures ok ==> placements == ApplyAll(old(placements), w.name, g, targets)
      ensures ok ==> (misplaced <==> exists t :: t in targets && targets[t])
      ensures NoFaults(f) && (forall t :: t in targets ==> !Refuses(old(placements), Name(w.name, t, g.id))) ==> ok
    {
      ghost var before := placements;
      var todo := targets.Keys;
      misplaced := false;
      ApplyNothing(before, w.name, g, targets);
      while todo != {}
        invariant todo <= targets.Keys
        invariant AppliedUntil(before, placements, w.name, g, targets, todo, misplaced)
        decreases todo
      {
        var t :| t in todo;
        var n := Name(w.name, t, g.id);
        AppliedNext(before, placements, w.name, g, targets, todo, misplaced, t);
        if Refuses(placements, n) || n in f.refused {
          StoppedApply(before, w.name, g, targets, todo);
          return false, false, NamesOf(w.name, g, todo), {};
        }
        if n in f.mute {
          MutedApply(before, w.name, g, targets, todo, t);
          placements := placements[n := AppliedPart(placements, n, g.workloads, targets[t], true)];
          return false, false, NamesOf(w.name, g, todo - {t}), {n};
        }
        placements := placements[n := Applied(placements, n, g.workloads, targets[t])];
        misplaced := misplaced || targets[t];
        todo := todo - {t};
      }
      AppliedToEnd(before, placements, w.name, g, targets, misplaced);
      return true, misplaced, {}, {};
    }

    method CleanupDanglingWorkplacements(w: Work, f: SchedulerFaults) returns (ok: bool, ghost names: set<Name>)
      modifies this`placements
      ensures placements == Dropped(old(placements), names * Dangling(old(placements), w))
      ensures ok ==> placements == DropDangling(old(placements), w)
      ensures ok ==> placements.Keys == old(placements).Keys && forall n :: n in placements ==>
        (placements[n].deleting <==>
          || old(placements)[n].deleting
          || (n.work == w.name && forall i :: 0 <= i < |w.groups| ==> w.groups[i].id != n.group))
      ensures NoFaults(f) ==> ok
      ensures WorkFramed(old(placements), placements, w.name)
    {
      ghost var before := placements;
      DropNothing(before);
      var shouldExist := {};
      var i := 0;
      while i < |w.groups|
        invariant 0 <= i <= |w.groups|
        invariant forall n: Name :: n in shouldExist <==>
          n in placements && n.work == w.name && exists j :: 0 <= j < i && w.groups[j].id == n.group
      {
        if w.groups[i].id in f.lists {
          return false, {};
        }
        shouldExist := shouldExist + Existing(placements, w.name, w.groups[i].id);
        i := i + 1;
      }
      if f.listAll {
        return false, {};
      }
      var todo := set n | n in placements && n.work == w.name && n !in shouldExist;
      ghost var dangling := Dangling(before, w);
      assert todo == dangling;
      names := {};
      while todo != {}
        invariant todo <= dangling <= before.Keys
        invariant names == dangling - todo
        invariant placements == Dropped(before, names)
        decreases todo
      {
        var n :| n in todo;
        if n in f.refused {
          assert names * dangling == names;
          return false, names;
        }
        DropOneMore(before, names, n);
        placements := placements[n := placements[n].(deleting := true)];
        todo := todo - {n};
        names := names + {n};
      }
      assert names == dangling && names * dangling == names;
      assert Dropped(before, dangling) == DropDangling(before, w);
      DroppedIff(before, w);
      return true, names;
    }
  }

  lemma NoOutcome(ps: Placements, dests: seq<Destination>, w: Work, g: Group, roll: nat, refused: set<Name>)
    requires CutPass(ps, dests, w, g, roll, refused, {}) == ps
    ensures GroupOutcome(ps, dests, w, g, roll, false, ps, None, refused, {})
  {
  }

  lemma UpdateOutcome(ps: Placements, dests: seq<Destination>, w: Work, g: Group, roll: nat, clean: bool,
                      end: Placements, status: Option<GroupStatus>, refused: set<Name>, mute: set<Name>)
    requires w.resource && Existing(ps, w.name, g.id) != {}
    requires end == UpdateSome(ps, Existing(ps, w.name, g.id), g, Allowed(dests, g), refused, mute)
    requires status.Some? ==>
      && end == UpdateAll(ps, Existing(ps, w.name, g.id), g, Allowed(dests, g))
      && status.value == if exists n :: n in Existing(ps, w.name, g.id) && ps[n].target !in Allowed(dests, g) then OffTarget else OnTarget
    requires clean ==> status.Some?
    ensures GroupOutcome(ps, dests, w, g, roll, clean, end, status, refused, mute)
  {
    CutIsFramed(ps, dests, w, g, roll, refused, mute);
  }

  lemma PlaceOutcome(ps: Placements, dests: seq<Destination>, w: Work, g: Group, roll: nat, clean: bool,
                     end: Placements, status: Option<GroupStatus>, refused: set<Name>, mute: set<Name>)
    requires !(w.resource && Existing(ps, w.name, g.id) != {})
    requires Placed(ps, w, g, TargetMap(ps, w.name, g.id, Chosen(EligibleNames(dests, Resolve(g.selectors)), w.resource, roll)), clean, end, status, refused, mute)
    ensures GroupOutcome(ps, dests, w, g, roll, clean, end, status, refused, mute)
  {
    CutIsFramed(ps, dests, w, g, roll, refused, mute);
    PlacedIsPass(ps, w, g, TargetMap(ps, w.name, g.id, Chosen(EligibleNames(dests, Resolve(g.selectors)), w.resource, roll)), clean, end, status, refused, mute);
  }

  lemma PlacedIsPass(ps: Placements, w: Work, g: Group, targets: map<string, bool>, clean: bool,
                     end: Placements, status: Option<GroupStatus>, refused: set<Name>, mute: set<Name>)
    requires Placed(ps, w, g, targets, clean, end, status, refused, mute)
    ensures status.Some? ==> PlacePass(ps, w, g, targets) == Done(end, status.value)
    ensures clean ==> (status.Some? <==> PlacePass(ps, w, g, targets).Done?)
  {
  }

  lemma DroppedIff(ps: Placements, w: Work)
    ensures var r := DropDangling(ps, w);
      r.Keys == ps.Keys && forall n :: n in r ==>
        (r[n].deleting <==> ps[n].deleting || (n.work == w.name && forall i :: 0 <= i < |w.groups| ==> w.groups[i].id != n.group))
  {
  }

  lemma DropNothing(ps: Placements)
    ensures Dropped(ps, {}) == ps
    ensures forall names: set<Name> :: {} * names == {}
  {
  }

  lemma DropOneMore(ps: Placements, names: set<Name>, n: Name)
    requires n in ps && n !in names
    ensures var part := Dropped(ps, names);
      n in part && part[n] == ps[n] && Dropped(ps, names + {n}) == part[n := ps[n].(deleting := true)]
  {
  }

  lemma {:induction false} CutAllIsFramed(ps: Placements, dests: seq<Destination>, w: Work, cuts: seq<Cut>)
    ensures WorkFramed(ps, CutAll(ps, dests, w, cuts), w.name)
  {
    if cuts != [] {
      var front, cut := cuts[..|cuts| - 1], cuts[|cuts| - 1];
      CutAllIsFramed(ps, dests, w, front);
      if cut.GroupCut? {
        CutIsFramed(CutAll(ps, dests, w, front), dests, w, cut.g, cut.roll, cut.refused, cut.mute);
      }
    }
  }

  function NamesOf(work: string, g: Group, targets: set<string>): set<Name> {
    set t | t in targets :: Name(work, t, g.id)
  }

  /** A pass that does not even get its list leaves everything alone. */
  lemma NothingReached(ps: Placements, dests: seq<Destination>, w: Work, g: Group, roll: nat) returns (refused: set<Name>)
    ensures CutPass(ps, dests, w, g, roll, refused, {}) == ps
  {
    var targets := TargetMap(ps, w.name, g.id, Chosen(EligibleNames(dests, Resolve(g.selectors)), w.resource, roll));
    refused := Existing(ps, w.name, g.id) + NamesOf(w.name, g, targets.Keys);
    var r := CutPass(ps, dests, w, g, roll, refused, {});
    forall n: Name
      ensures (n in r <==> n in ps) && (n in r ==> r[n] == ps[n])
    {
      AppliedSomeAt(ps, w.name, g, targets, refused, {}, n);
      if n.work == w.name && n.group == g.id && n.target in targets {
        assert n == Name(w.name, n.target, g.id);
      }
    }
    SameByName(r, ps);
  }

  /** Stopping before the targets in `todo` is refusing them. */
  lemma StoppedApply(ps: Placements, work: string, g: Group, targets: map<string, bool>, todo: set<string>)
    requires todo <= targets.Keys
    requires forall t :: t in targets && t !in todo ==> !Refuses(ps, Name(work, t, g.id))
    ensures ApplyAll(ps, work, g, targets - todo) == ApplySome(ps, work, g, targets, NamesOf(work, g, todo), {})
  {
    var a, b := ApplyAll(ps, work, g, targets - todo), ApplySome(ps, work, g, targets, NamesOf(work, g, todo), {});
    forall n: Name
      ensures (n in a <==> n in b) && (n in a ==> a[n] == b[n])
    {
      AppliedAt(ps, work, g, targets - todo, n);
      AppliedSomeAt(ps, work, g, targets, NamesOf(work, g, todo), {}, n);
      if n.work == work && n.group == g.id {
        assert n == Name(work, n.target, g.id);
        assert n in NamesOf(work, g, todo) <==> n.target in todo;
      }
    }
    SameByName(a, b);
  }

  /** The same with one more target whose status update fails. */
  lemma MutedApply(ps: Placements, work: string, g: Group, targets: map<string, bool>, todo: set<string>, t: string)
    requires t in todo && todo <= targets.Keys && !Refuses(ps, Name(work, t, g.id))
    requires forall u :: u in targets && u !in todo ==> !Refuses(ps, Name(work, u, g.id))
    ensures var n, part := Name(work, t, g.id), ApplyAll(ps, work, g, targets - todo);
      part[n := AppliedPart(part, n, g.workloads, targets[t], true)]
        == ApplySome(ps, work, g, targets, NamesOf(work, g, todo - {t}), {n})
  {
    var n, part := Name(work, t, g.id), ApplyAll(ps, work, g, targets - todo);
    var a, b := part[n := AppliedPart(part, n, g.workloads, targets[t], true)], ApplySome(ps, work, g, targets, NamesOf(work, g, todo - {t}), {n});
    AppliedAt(ps, work, g, targets - todo, n);
    forall m: Name
      ensures (m in a <==> m in b) && (m in a ==> a[m] == b[m])
    {
      AppliedAt(ps, work, g, targets - todo, m);
      AppliedSomeAt(ps, work, g, targets, NamesOf(work, g, todo - {t}), {n}, m);
      if m.work == work && m.group == g.id {
        assert m == Name(work, m.target, g.id);
        assert m in NamesOf(work, g, todo - {t}) <==> m.target in todo - {t};
      }
    }
    SameByName(a, b);
  }

  lemma UpdateNone(ps: Placements, g: Group, allowed: set<string>, refused: set<Name>, mute: set<Name>)
    ensures UpdateSome(ps, {}, g, allowed, refused, mute) == ps
  {
  }

  lemma UpdateOneMore(ps: Placements, names: set<Name>, g: Group, allowed: set<string>, refused: set<Name>, mute: set<Name>, n: Name)
    requires n in ps && n !in names
    ensures var part := UpdateSome(ps, names, g, allowed, refused, mute);
      && n in part && part[n] == ps[n]
      && UpdateSome(ps, names + {n}, g, allowed, refused, mute) ==
         if n in refused then part else part[n := UpdatedPart(ps[n], g, ps[n].target !in allowed, n in mute)]
  {
  }

  /** Placements of other Works are as they were. */
  ghost predicate WorkFramed(a: Placements, b: Placements, work: string) {
    forall n: Name :: n.work != work ==> (n in a <==> n in b) && (n in a ==> a[n] == b[n])
  }

  lemma OneMoreGroup(ps: Placements, groups: seq<Group>, pass: (Placements, Group) -> GroupResult, i: nat)
    requires i < |groups| && GroupsPass(ps, groups[..i], pass).Passed?
    ensures var r := GroupsPass(ps, groups[..i], pass);
      GroupsPass(ps, groups[..i + 1], pass) ==
      match pass(r.placements, groups[i])
      case Failed => Aborted
      case Done(end, status) => Passed(end,
                                       if status.NoTarget? then r.unscheduled + [groups[i].id] else r.unscheduled,
                                       if status.OffTarget? then r.misplaced + [groups[i].id] else r.misplaced)
  {
    assert groups[..i + 1][..i] == groups[..i];
  }

  lemma {:induction false} AbortedForGood(ps: Placements, groups: seq<Group>, pass: (Placements, Group) -> GroupResult, i: nat)
    requires i <= |groups| && GroupsPass(ps, groups[..i], pass).Aborted?
    ensures GroupsPass(ps, groups, pass).Aborted?
    decreases |groups|
  {
    if i < |groups| {
      assert groups[..|groups| - 1][..i] == groups[..i];
      AbortedForGood(ps, groups[..|groups| - 1], pass, i);
    } else {
      assert groups[..i] == groups;
    }
  }

  lemma ApplyNothing(ps: Placements, work: string, g: Group, targets: map<string, bool>)
    ensures ApplyAll(ps, work, g, targets - targets.Keys) == ps
  {
  }

  /** Every target outside `todo` has been applied and was accepted; `misplaced` says whether one of them was. */
  ghost predicate AppliedUntil(ps: Placements, now: Placements, work: string, g: Group, targets: map<string, bool>, todo: set<string>, misplaced: bool) {
    && now == ApplyAll(ps, work, g, targets - todo)
    && (forall t :: t in targets && t !in todo ==> !Refuses(ps, Name(work, t, g.id)))
    && (misplaced <==> exists t :: t in targets && t !in todo && targets[t])
  }

  lemma AppliedNext(ps: Placements, now: Placements, work: string, g: Group, targets: map<string, bool>, todo: set<string>, misplaced: bool, t: string)
    requires t in todo && todo <= targets.Keys && AppliedUntil(ps, now, work, g, targets, todo, misplaced)
    ensures var n := Name(work, t, g.id);
      && (Refuses(now, n) <==> Refuses(ps, n))
      && (!Refuses(now, n) ==>
            AppliedUntil(ps, now[n := Applied(now, n, g.workloads, targets[t])], work, g, targets, todo - {t}, misplaced || targets[t]))
  {
    ApplyOneMore(ps, work, g, targets, todo, t);
  }

  lemma AppliedToEnd(ps: Placements, now: Placements, work: string, g: Group, targets: map<string, bool>, misplaced: bool)
    requires AppliedUntil(ps, now, work, g, targets, {}, misplaced)
    ensures now == ApplyAll(ps, work, g, targets) == ApplySome(ps, work, g, targets, {}, {})
    ensures forall t :: t in targets ==> !Refuses(ps, Name(work, t, g.id))
    ensures misplaced <==> exists t :: t in targets && targets[t]
  {
    assert targets - {} == targets;
    ApplyEvery(ps, work, g, targets);
  }

  lemma ApplyOneMore(ps: Placements, work: string, g: Group, targets: map<string, bool>, todo: set<string>, t: string)
    requires t in todo && todo <= targets.Keys
    ensures var n, part := Name(work, t, g.id), ApplyAll(ps, work, g, targets - todo);
      && (n in part <==> n in ps) && (n in ps ==> part[n] == ps[n])
      && ApplyAll(ps, work, g, targets - (todo - {t})) == part[n := Applied(ps, n, g.workloads, targets[t])]
  {
    var n, part := Name(work, t, g.id), ApplyAll(ps, work, g, targets - todo);
    var more := ApplyAll(ps, work, g, targets - (todo - {t}));
    forall m: Name
      ensures m in more <==> m in part || m == n
      ensures m in more ==> more[m] == if m == n then Applied(ps, n, g.workloads, targets[t]) else part[m]
    {
      AppliedBoth(ps, work, g, targets, todo, t, m);
    }
    SameByName(more, part[n := Applied(ps, n, g.workloads, targets[t])]);
    AppliedAt(ps, work, g, targets - todo, n);
  }

  lemma AppliedBoth(ps: Placements, work: string, g: Group, targets: map<string, bool>, todo: set<string>, t: string, m: Name)
    requires t in todo && todo <= targets.Keys
    ensures var n, part := Name(work, t, g.id), ApplyAll(ps, work, g, targets - todo);
      var more := ApplyAll(ps, work, g, targets - (todo - {t}));
      && (m in more <==> m in part || m == n)
      && (m in more ==> more[m] == if m == n then Applied(ps, n, g.workloads, targets[t]) else part[m])
  {
    AppliedAt(ps, work, g, targets - todo, m);
    AppliedAt(ps, work, g, targets - (todo - {t}), m);
  }
}
