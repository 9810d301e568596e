/** What a pass says and does about a Work, in terms of the placements that are there afterwards: the
    Work's conditions and counter, every placement's conditions, which placements are asked to go, and
    when a pass can finish at all. */
module SchedulerReports {
  import opened Selectors
  import opened Conditions
  import opened Scheduler
  import opened SchedulerResults

  // ------------------------------------------------------------ the verdict

  function JoinIDs(ids: seq<string>): string {
    if ids == [] then "" else if |ids| == 1 then ids[0] else JoinIDs(ids[..|ids| - 1]) + "," + ids[|ids| - 1]
  }

  /** What a finished pass says about the Work. */
  function VerdictOf(unscheduled: seq<string>, misplaced: seq<string>): WorkVerdict {
    if |unscheduled| > 0 then WorkVerdict.Unscheduled(JoinIDs(unscheduled))
    else if |misplaced| > 0 then WorkVerdict.Misplaced(JoinIDs(misplaced))
    else AllScheduled
  }

  /** The parts between commas. */
  function SplitIDs(s: string): (ids: seq<string>)
    ensures ids != []
  {
    if s == "" then [""]
    else
      var front, c := SplitIDs(s[..|s| - 1]), s[|s| - 1];
      if c == ',' then front + [""] else front[..|front| - 1] + [front[|front| - 1] + [c]]
  }

  lemma {:induction false} SplitLast(s: string, id: string)
    requires ',' !in id
    ensures SplitIDs(s + "," + id) == SplitIDs(s) + [id]
  {
    var t := s + "," + id;
    if id == "" {
      assert t[..|t| - 1] == s;
    } else {
      assert t[..|t| - 1] == s + "," + id[..|id| - 1];
      SplitLast(s, id[..|id| - 1]);
      assert id[..|id| - 1] + [id[|id| - 1]] == id;
    }
  }

  lemma {:induction false} SplitOne(id: string)
    requires ',' !in id
    ensures SplitIDs(id) == [id]
  {
    if id != "" {
      SplitOne(id[..|id| - 1]);
      assert id[..|id| - 1] + [id[|id| - 1]] == id;
    }
  }

  /** A message tells which groups it is about: their IDs are hexadecimal numbers, without commas. */
  lemma {:induction false} JoinedIsReadable(ids: seq<string>)
    requires ids != [] && forall i :: 0 <= i < |ids| ==> ',' !in ids[i]
    ensures SplitIDs(JoinIDs(ids)) == ids
  {
    if |ids| == 1 {
      SplitOne(ids[0]);
    } else {
      var front, last := ids[..|ids| - 1], ids[|ids| - 1];
      JoinedIsReadable(front);
      SplitLast(JoinIDs(front), last);
      assert front + [last] == ids;
    }
  }

  // ----------------------------------------------- what the placements show

  predicate IsOf(w: Work, i: nat, n: Name)
    requires i < |w.groups|
  {
    n.work == w.name && n.group == w.groups[i].id
  }

  ghost predicate Unplaced(ps: Placements, w: Work, i: nat)
    requires i < |w.groups|
  {
    forall n :: n in ps ==> !IsOf(w, i, n)
  }

  ghost predicate Stray(ps: Placements, dests: seq<Destination>, w: Work, i: nat)
    requires i < |w.groups|
  {
    exists n :: n in ps && IsOf(w, i, n) && ps[n].target !in Allowed(dests, w.groups[i])
  }

  /** The groups without a placement. */
  ghost function Homeless(ps: Placements, w: Work): set<nat> {
    set i: nat | i < |w.groups| && Unplaced(ps, w, i)
  }

  /** The groups with a placement on a destination that is not eligible. */
  ghost function Astray(ps: Placements, dests: seq<Destination>, w: Work): set<nat> {
    set i: nat | i < |w.groups| && Stray(ps, dests, w, i)
  }

  /** The IDs of exactly these groups, each once. */
  ghost predicate Lists(ids: seq<string>, groups: seq<Group>, which: set<nat>) {
    && |ids| == |which|
    && (forall i :: i in which ==> i < |groups| && groups[i].id in ids)
    && (forall id :: id in ids ==> exists i :: i in which && i < |groups| && groups[i].id == id)
  }

  /** The conditions tell what the placements show: some group has no placement, or else some target is
      not eligible, or else all is well. */
  ghost predicate Tells(c: WorkConditions, ps: Placements, dests: seq<Destination>, w: Work) {
    var homeless, astray := Homeless(ps, w), Astray(ps, dests, w);
    && c.schedule.Condition? && c.ready.Condition?
    && (c.schedule.status <==> homeless == {} && astray == {})
    && (c.ready.status <==> homeless == {} && astray == {})
    && (homeless != {} ==> c.schedule.reason == UnscheduledWorkloads && SaysWhich(c, w, homeless))
    && (homeless == {} && astray != {} ==> c.schedule.reason == DestinationSelectorMismatch && SaysWhich(c, w, astray))
    && (homeless == {} && astray == {} ==> c.schedule.reason == AllWorkplacementsScheduled)
  }

  ghost predicate SaysWhich(c: WorkConditions, w: Work, which: set<nat>) {
    c.schedule.Condition? && exists ids :: c.schedule.message == Listing(JoinIDs(ids)) && Lists(ids, w.groups, which)
  }

  // ------------------------------------------------------ from lists to sets

  ghost function With(ps: Placements, dests: seq<Destination>, w: Work, groups: seq<Group>, status: GroupStatus): set<nat> {
    set i: nat | i < |groups| && LocalStatus(ps, dests, w, groups[i]) == status
  }

  lemma WithOneMore(ps: Placements, dests: seq<Destination>, w: Work, front: seq<Group>, g: Group, status: GroupStatus)
    ensures With(ps, dests, w, front + [g], status) ==
      With(ps, dests, w, front, status) + (if LocalStatus(ps, dests, w, g) == status then {|front|} else {})
  {
    var all := front + [g];
    assert all[|front|] == g && forall i :: 0 <= i < |front| ==> all[i] == front[i];
  }

  lemma ListsOneMore(ids: seq<string>, front: seq<Group>, g: Group, which: set<nat>)
    requires Lists(ids, front, which)
    ensures Lists(ids, front + [g], which)
    ensures Lists(ids + [g.id], front + [g], which + {|front|})
  {
    var all := front + [g];
    assert |front| !in which && all[|front|] == g;
    forall id | id in ids
      ensures exists i :: i in which && i < |all| && all[i].id == id
    {
      var i :| i in which && i < |front| && front[i].id == id;
      assert all[i].id == id;
    }
    assert |front| in which + {|front|};
  }

  /** The reported list is the list of the groups with that status. */
  lemma {:induction false} CollectLists(ps: Placements, dests: seq<Destination>, w: Work, groups: seq<Group>, status: GroupStatus)
    ensures Lists(Collect(ps, dests, w, groups, status), groups, With(ps, dests, w, groups, status))
  {
    if groups != [] {
      var front, g := groups[..|groups| - 1], groups[|groups| - 1];
      assert groups == front + [g];
      CollectLists(ps, dests, w, front, status);
      WithOneMore(ps, dests, w, front, g, status);
      ListsOneMore(Collect(ps, dests, w, front, status), front, g, With(ps, dests, w, front, status));
    }
  }

  lemma StatusIs(ps: Placements, dests: seq<Destination>, w: Work)
    ensures With(ps, dests, w, w.groups, NoTarget) == Homeless(ps, w)
    ensures With(ps, dests, w, w.groups, OffTarget) == Astray(ps, dests, w)
  {
    forall i: nat | i < |w.groups|
      ensures LocalStatus(ps, dests, w, w.groups[i]).NoTarget? <==> Unplaced(ps, w, i)
      ensures LocalStatus(ps, dests, w, w.groups[i]).OffTarget? <==> Stray(ps, dests, w, i)
    {
      OneStatus(ps, dests, w, i);
    }
  }

  lemma OneStatus(ps: Placements, dests: seq<Destination>, w: Work, i: nat)
    requires i < |w.groups|
    ensures LocalStatus(ps, dests, w, w.groups[i]).NoTarget? <==> Unplaced(ps, w, i)
    ensures LocalStatus(ps, dests, w, w.groups[i]).OffTarget? <==> Stray(ps, dests, w, i)
  {
    var existing := Existing(ps, w.name, w.groups[i].id);
    assert forall n :: n in existing <==> n in ps && IsOf(w, i, n);
    if n :| n in ps && IsOf(w, i, n) {
      assert n in existing;
    }
  }

  // ------------------------------------------------------------ the reports

  lemma VerdictTells(c: WorkConditions, ps: Placements, dests: seq<Destination>, w: Work)
    requires WorkPaired(c)
    ensures Tells(SetWork(c, VerdictOf(Collect(ps, dests, w, w.groups, NoTarget), Collect(ps, dests, w, w.groups, OffTarget))), ps, dests, w)
  {
    var us, ms := Collect(ps, dests, w, w.groups, NoTarget), Collect(ps, dests, w, w.groups, OffTarget);
    CollectLists(ps, dests, w, w.groups, NoTarget);
    CollectLists(ps, dests, w, w.groups, OffTarget);
    StatusIs(ps, dests, w);
    VerdictIsWritten(c, VerdictOf(us, ms));
    ListsTell(SetWork(c, VerdictOf(us, ms)), us, ms, ps, dests, w);
  }

  lemma ListsTell(c: WorkConditions, us: seq<string>, ms: seq<string>, ps: Placements, dests: seq<Destination>, w: Work)
    requires Lists(us, w.groups, Homeless(ps, w)) && Lists(ms, w.groups, Astray(ps, dests, w))
    requires c.schedule == ScheduleOf(VerdictOf(us, ms)) && c.ready.Condition? && (c.ready.status <==> c.schedule.status)
    ensures Tells(c, ps, dests, w)
  {
  }

  lemma VerdictIsWritten(c: WorkConditions, v: WorkVerdict)
    requires WorkPaired(c)
    ensures SetWork(c, v).schedule == ScheduleOf(v)
    ensures SetWork(c, v).ready.Condition? && (SetWork(c, v).ready.status <==> ScheduleOf(v).status)
  {
    VerdictPairs(v);
  }

  /** After a finished pass the Work's conditions tell which groups have no placement or one on a
      destination that is not eligible, and the counter how many have one. */
  lemma WorkReport(ps: Placements, dests: seq<Destination>, w: Work, roll: string -> nat, c: WorkConditions)
    requires Named(ps) && DistinctGroups(w.groups) && WorkPass(ps, dests, w, roll).Passed? && WorkPaired(c)
    ensures var r := WorkPass(ps, dests, w, roll);
      && Tells(SetWork(c, VerdictOf(r.unscheduled, r.misplaced)), r.placements, dests, w)
      && Lists(r.unscheduled, w.groups, Homeless(r.placements, w))
      && Lists(r.misplaced, w.groups, Astray(r.placements, dests, w))
  {
    PassShows(ps, dests, w, roll);
    var r := WorkPass(ps, dests, w, roll);
    VerdictTells(c, r.placements, dests, w);
    CollectLists(r.placements, dests, w, w.groups, NoTarget);
    CollectLists(r.placements, dests, w, w.groups, OffTarget);
    StatusIs(r.placements, dests, w);
  }

  lemma PassShows(ps: Placements, dests: seq<Destination>, w: Work, roll: string -> nat)
    requires Named(ps) && DistinctGroups(w.groups) && WorkPass(ps, dests, w, roll).Passed?
    ensures var r := WorkPass(ps, dests, w, roll);
      && AllSettled(r.placements, dests, w, w.groups)
      && r.unscheduled == Collect(r.placements, dests, w, w.groups, NoTarget)
      && r.misplaced == Collect(r.placements, dests, w, w.groups, OffTarget)
  {
    PassSettles(dests, w, roll);
    GroupsPassSettles(ps, dests, w, w.groups, PassOf(dests, w, roll));
    GroupsPassReports(ps, dests, w, w.groups, PassOf(dests, w, roll));
    DroppingKeepsGroups(GroupsPass(ps, w.groups, PassOf(dests, w, roll)).placements, dests, w);
  }

  /** No placement is Ready while it says that it is misplaced, which `MisplacedNeverReady` shows of all
      status writes in any order. */
  ghost predicate Consistent(ps: Placements) {
    forall n :: n in ps ==> NeverReadyMisplaced(ps[n].conditions)
  }

  lemma GroupPassKeepsConsistent(ps: Placements, dests: seq<Destination>, w: Work, g: Group, roll: nat)
    requires Consistent(ps) && GroupPass(ps, dests, w, g, roll).Done?
    ensures Consistent(GroupPass(ps, dests, w, g, roll).placements)
  {
    if !(w.resource && Existing(ps, w.name, g.id) != {}) {
      var targets := TargetMap(ps, w.name, g.id, Chosen(EligibleNames(dests, Resolve(g.selectors)), w.resource, roll));
      forall n: Name | n in ApplyAll(ps, w.name, g, targets)
        ensures NeverReadyMisplaced(ApplyAll(ps, w.name, g, targets)[n].conditions)
      {
        AppliedAt(ps, w.name, g, targets, n);
      }
    }
  }

  lemma {:induction false} GroupsPassKeepsConsistent(ps: Placements, dests: seq<Destination>, w: Work, groups: seq<Group>, roll: string -> nat)
    requires Consistent(ps) && GroupsPass(ps, groups, PassOf(dests, w, roll)).Passed?
    ensures Consistent(GroupsPass(ps, groups, PassOf(dests, w, roll)).placements)
  {
    if groups != [] {
      var front, g := groups[..|groups| - 1], groups[|groups| - 1];
      GroupsPassKeepsConsistent(ps, dests, w, front, roll);
      GroupPassKeepsConsistent(GroupsPass(ps, front, PassOf(dests, w, roll)).placements, dests, w, g, roll(g.id));
    }
  }

  /** After a finished pass every placement of a current group has the group's workloads and says
      whether its target is eligible; one that is not carries the label and is not Ready. */
  lemma PlacementReport(ps: Placements, dests: seq<Destination>, w: Work, roll: string -> nat, i: nat, n: Name)
    requires Named(ps) && DistinctGroups(w.groups) && WorkPass(ps, dests, w, roll).Passed?
    requires i < |w.groups| && IsOf(w, i, n) && n in WorkPass(ps, dests, w, roll).placements
    ensures var p, off := WorkPass(ps, dests, w, roll).placements[n], n.target !in Allowed(dests, w.groups[i]);
      && p.target == n.target && p.workloads == w.groups[i].workloads
      && p.conditions.schedule == (if off then Condition(false, DestinationSelectorMismatch, Fixed)
                                   else Condition(true, ScheduledToDestination, Fixed))
      && (off ==> p.misplaced)
      && (off && Consistent(ps) ==> p.conditions.ready.Condition? && !p.conditions.ready.status)
  {
    if Consistent(ps) {
      GroupsPassKeepsConsistent(ps, dests, w, w.groups, roll);
    }
    PassShows(ps, dests, w, roll);
    PassSettles(dests, w, roll);
    GroupsPassKeepsNamed(ps, dests, w, w.groups, PassOf(dests, w, roll));
    assert SettledGroup(WorkPass(ps, dests, w, roll).placements, dests, w, w.groups[i]);
    assert n in Existing(WorkPass(ps, dests, w, roll).placements, w.name, w.groups[i].id);
  }

  // --------------------------------------------------------- who has to go

  /** A placement is being deleted only if it was before; a new one has its cleanup finalizer, and none
      loses it. */
  predicate SameFate(ps: Placements, r: Placements, n: Name)
    requires n in r
  {
    && (r[n].deleting <==> n in ps && ps[n].deleting)
    && (n !in ps || ps[n].repo ==> r[n].repo)
  }

  lemma GroupPassDeletesNone(ps: Placements, dests: seq<Destination>, w: Work, g: Group, roll: nat)
    requires GroupPass(ps, dests, w, g, roll).Done?
    ensures var r := GroupPass(ps, dests, w, g, roll).placements;
      ps.Keys <= r.Keys && forall n :: n in r ==> SameFate(ps, r, n)
  {
    var existing := Existing(ps, w.name, g.id);
    if !(w.resource && existing != {}) {
      var targets := TargetMap(ps, w.name, g.id, Chosen(EligibleNames(dests, Resolve(g.selectors)), w.resource, roll));
      forall n: Name
        ensures n in ps ==> n in ApplyAll(ps, w.name, g, targets)
        ensures n in ApplyAll(ps, w.name, g, targets) ==> SameFate(ps, ApplyAll(ps, w.name, g, targets), n)
      {
        AppliedAt(ps, w.name, g, targets, n);
      }
    }
  }

  lemma {:induction false} GroupsPassDeletesNone(ps: Placements, dests: seq<Destination>, w: Work, groups: seq<Group>, roll: string -> nat)
    requires GroupsPass(ps, groups, PassOf(dests, w, roll)).Passed?
    ensures var r := GroupsPass(ps, groups, PassOf(dests, w, roll)).placements;
      ps.Keys <= r.Keys && forall n :: n in r ==> SameFate(ps, r, n)
  {
    if groups != [] {
      var front, g := groups[..|groups| - 1], groups[|groups| - 1];
      GroupsPassDeletesNone(ps, dests, w, front, roll);
      GroupPassDeletesNone(GroupsPass(ps, front, PassOf(dests, w, roll)).placements, dests, w, g, roll(g.id));
    }
  }

  /** A finished pass keeps every placement object, and one of the Work is being deleted afterwards if
      and only if it was before or no group of the Work has its group's ID.  So a new one
      never is; it has its cleanup finalizer, and none loses it. */
  lemma DeletedIff(ps: Placements, dests: seq<Destination>, w: Work, roll: string -> nat, n: Name)
    requires WorkPass(ps, dests, w, roll).Passed?
    ensures var r := WorkPass(ps, dests, w, roll).placements;
      && (n in ps ==> n in r)
      && (n in r ==> (r[n].deleting <==>
            || (n in ps && ps[n].deleting)
            || (n.work == w.name && forall i :: 0 <= i < |w.groups| ==> w.groups[i].id != n.group)))
      && (n in r && (n !in ps || ps[n].repo) ==> r[n].repo)
  {
    GroupsPassDeletesNone(ps, dests, w, w.groups, roll);
  }

  lemma CutDeletes(ps: Placements, dests: seq<Destination>, w: Work, cut: Cut, n: Name)
    requires n in CutStep(ps, dests, w, cut) && CutStep(ps, dests, w, cut)[n].deleting
    ensures || (n in ps && ps[n].deleting)
            || (n.work == w.name && forall i :: 0 <= i < |w.groups| ==> w.groups[i].id != n.group)
  {
    if cut.GroupCut? && !(w.resource && Existing(ps, w.name, cut.g.id) != {}) {
      var targets := TargetMap(ps, w.name, cut.g.id, Chosen(EligibleNames(dests, Resolve(cut.g.selectors)), w.resource, cut.roll));
      AppliedSomeAt(ps, w.name, cut.g, targets, cut.refused, cut.mute, n);
    }
  }

  /** Wherever failing calls cut a pass short, it asks no placement of a current group to go. */
  lemma {:induction false} CutsDeleteDanglingOnly(ps: Placements, dests: seq<Destination>, w: Work, cuts: seq<Cut>, n: Name)
    requires n in CutAll(ps, dests, w, cuts) && CutAll(ps, dests, w, cuts)[n].deleting
    ensures || (n in ps && ps[n].deleting)
            || (n.work == w.name && forall i :: 0 <= i < |w.groups| ==> w.groups[i].id != n.group)
  {
    if cuts != [] {
      var front := cuts[..|cuts| - 1];
      var mid := CutAll(ps, dests, w, front);
      CutDeletes(mid, dests, w, cuts[|cuts| - 1], n);
      if n in mid && mid[n].deleting {
        CutsDeleteDanglingOnly(ps, dests, w, front, n);
      }
    }
  }

  // --------------------------------------------------- when a pass finishes

  /** A placement of the group is on its way out and has lost its cleanup finalizer already. */
  ghost predicate Blocked(ps: Placements, work: string, group: string) {
    exists n :: n in ps && n.work == work && n.group == group && ps[n].deleting && !ps[n].repo
  }

  lemma GroupPassesIff(ps: Placements, dests: seq<Destination>, w: Work, g: Group, roll: nat)
    requires GroupNamed(ps, w.name, g.id)
    ensures GroupPass(ps, dests, w, g, roll).Done? <==> w.resource || !Blocked(ps, w.name, g.id)
  {
    var existing := Existing(ps, w.name, g.id);
    var chosen := Chosen(EligibleNames(dests, Resolve(g.selectors)), w.resource, roll);
    var targets := TargetMap(ps, w.name, g.id, chosen);
    if w.resource && existing == {} {
      FreshTargets(ps, w, g, chosen);
    }
    if !w.resource {
      RefusedIff(ps, w, g, chosen);
    }
  }

  lemma RefusedIff(ps: Placements, w: Work, g: Group, chosen: set<string>)
    requires GroupNamed(ps, w.name, g.id)
    ensures (exists t :: t in TargetMap(ps, w.name, g.id, chosen) && Refuses(ps, Name(w.name, t, g.id))) <==> Blocked(ps, w.name, g.id)
  {
    var targets := TargetMap(ps, w.name, g.id, chosen);
    if n :| n in ps && n.work == w.name && n.group == g.id && ps[n].deleting && !ps[n].repo {
      assert n == Name(w.name, n.target, g.id) && n in Existing(ps, w.name, g.id);
      TargetMember(ps, w.name, g.id, n.target);
      assert n.target in targets && Refuses(ps, Name(w.name, n.target, g.id));
    }
  }

  /** The pass over a group decides in this way whether it can be done. */
  ghost predicate Decides(pass: (Placements, Group) -> GroupResult, w: Work) {
    forall ps, g :: Named(ps) ==> (pass(ps, g).Done? <==> w.resource || !Blocked(ps, w.name, g.id))
  }

  lemma PassDecides(dests: seq<Destination>, w: Work, roll: string -> nat)
    ensures Decides(PassOf(dests, w, roll), w)
  {
    forall ps, g | Named(ps)
      ensures PassOf(dests, w, roll)(ps, g).Done? <==> w.resource || !Blocked(ps, w.name, g.id)
    {
      GroupPassesIff(ps, dests, w, g, roll(g.id));
    }
  }

  lemma {:induction false} GroupsPassIff(ps: Placements, dests: seq<Destination>, w: Work, groups: seq<Group>, pass: (Placements, Group) -> GroupResult)
    requires Named(ps) && DistinctGroups(groups) && Settles(pass, dests, w) && Decides(pass, w)
    ensures GroupsPass(ps, groups, pass).Passed? <==>
      w.resource || forall i :: 0 <= i < |groups| ==> !Blocked(ps, w.name, groups[i].id)
  {
    if groups != [] {
      var front, g := groups[..|groups| - 1], groups[|groups| - 1];
      GroupsPassIff(ps, dests, w, front, pass);
      assert forall i :: 0 <= i < |front| ==> front[i] == groups[i];
      if GroupsPass(ps, front, pass).Passed? {
        var mid := GroupsPass(ps, front, pass).placements;
        GroupsPassKeepsNamed(ps, dests, w, front, pass);
        GroupsPassIsFramed(ps, dests, w, front, pass);
        BlockedIsLocal(ps, mid, w.name, front, g.id);
        assert GroupsPass(ps, groups, pass).Passed? <==> pass(mid, g).Done?;
      }
    }
  }

  lemma BlockedIsLocal(ps: Placements, mid: Placements, work: string, front: seq<Group>, group: string)
    requires FramedBy(ps, mid, work, front) && forall i :: 0 <= i < |front| ==> front[i].id != group
    ensures Blocked(ps, work, group) <==> Blocked(mid, work, group)
  {
    forall n: Name | n.work == work && n.group == group
      ensures (n in ps <==> n in mid) && (n in ps ==> mid[n] == ps[n])
    {
    }
  }

  /** Without failing calls a pass finishes if and only if the Work is a resource request's, or no
      placement of a current group is being deleted without its cleanup finalizer. */
  lemma PassFinishesIff(ps: Placements, dests: seq<Destination>, w: Work, roll: string -> nat)
    requires Named(ps) && DistinctGroups(w.groups)
    ensures WorkPass(ps, dests, w, roll).Passed? <==>
      w.resource || forall i :: 0 <= i < |w.groups| ==> !Blocked(ps, w.name, w.groups[i].id)
  {
    PassSettles(dests, w, roll);
    PassDecides(dests, w, roll);
    GroupsPassIff(ps, dests, w, w.groups, PassOf(dests, w, roll));
  }

  /** The placement of a new resource group is on `t`. */
  ghost predicate GoesTo(ps: Placements, dests: seq<Destination>, w: Work, g: Group, roll: nat, t: string) {
    var r := GroupPass(ps, dests, w, g, roll);
    r.Done? && r.placements.Keys == ps.Keys + {Name(w.name, t, g.id)}
  }

  /** Every eligible destination can be the random choice for a new resource placement. */
  lemma AnyChoiceIsPossible(ps: Placements, dests: seq<Destination>, w: Work, g: Group, t: string)
    requires w.resource && Existing(ps, w.name, g.id) == {} && t in Allowed(dests, g)
    ensures exists roll: nat :: GoesTo(ps, dests, w, g, roll, t)
  {
    var roll := RollFor(EligibleNames(dests, Resolve(g.selectors)), t);
    FreshTargets(ps, w, g, {t});
    assert GoesTo(ps, dests, w, g, roll, t);
  }

  lemma RollFor(eligible: seq<string>, t: string) returns (roll: nat)
    requires t in eligible
    ensures Chosen(eligible, true, roll) == {t}
  {
    roll :| roll < |eligible| && eligible[roll] == t;
    assert roll % |eligible| == roll;
  }
}
