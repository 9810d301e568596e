/** What a scheduling pass achieves, and what holds over all passes. */
module SchedulerResults {
  import opened Selectors
  import opened Conditions
  import opened Scheduler

  // -------------------------------------------------- the settled state of a group

  /** The status a settled group has. */
  function LocalStatus(ps: Placements, dests: seq<Destination>, w: Work, g: Group): GroupStatus {
    var existing := Existing(ps, w.name, g.id);
    if existing == {} then NoTarget
    else if exists n :: n in existing && ps[n].target !in Allowed(dests, g) then OffTarget
    else OnTarget
  }

  /** The group's placements are for the destinations their names say. */
  ghost predicate GroupNamed(ps: Placements, work: string, group: string) {
    forall n :: n in Existing(ps, work, group) ==> ps[n].target == n.target
  }

  /** Another pass over the group has nothing to do. */
  predicate SettledGroup(ps: Placements, dests: seq<Destination>, w: Work, g: Group) {
    var existing, allowed := Existing(ps, w.name, g.id), Allowed(dests, g);
    if w.resource then
      && (existing == {} ==> allowed == {})
      && forall n :: n in existing ==> ps[n] == Refreshed(ps[n], g.workloads, ps[n].target !in allowed)
    else
      && (forall t :: t in allowed ==> Name(w.name, t, g.id) in ps)
      && forall n :: n in existing ==> ps[n] == Applied(ps, n, g.workloads, n.target !in allowed)
  }

  lemma ChosenIsAllowed(dests: seq<Destination>, g: Group, resource: bool, roll: nat)
    ensures var chosen := Chosen(EligibleNames(dests, Resolve(g.selectors)), resource, roll);
      && chosen <= Allowed(dests, g)
      && (chosen == {} <==> Allowed(dests, g) == {})
      && (!resource ==> chosen == Allowed(dests, g))
      && (resource && chosen != {} ==> exists t :: chosen == {t})
  {
    var eligible := EligibleNames(dests, Resolve(g.selectors));
    if eligible != [] {
      assert eligible[0] in Allowed(dests, g);
      assert eligible[roll % |eligible|] in eligible;
    }
  }

  lemma TargetMember(ps: Placements, work: string, group: string, t: string)
    requires GroupNamed(ps, work, group)
    ensures t in TargetsOf(ps, work, group) <==> Name(work, t, group) in ps
  {
    if Name(work, t, group) in ps {
      assert Name(work, t, group) in Existing(ps, work, group);
    }
  }

  lemma ScheduledTwice(c: PlacementConditions, misplaced: bool)
    ensures SetScheduled(SetScheduled(c, misplaced), misplaced) == SetScheduled(c, misplaced)
  {
  }

  /** After the apply branch the group sits on exactly the targets of the map. */
  lemma ApplyBranch(ps: Placements, w: Work, g: Group, chosen: set<string>)
    requires GroupNamed(ps, w.name, g.id)
    ensures var targets := TargetMap(ps, w.name, g.id, chosen);
      var r := ApplyAll(ps, w.name, g, targets);
      && (forall n :: n in Existing(r, w.name, g.id) <==> n == Name(w.name, n.target, g.id) && n.target in targets)
      && (forall n :: n in Existing(r, w.name, g.id) ==>
            r[n] == Applied(r, n, g.workloads, n.target !in chosen) && r[n].workloads == g.workloads
            && (r[n].misplaced <==> n.target !in chosen) && r[n].target == n.target)
      && (forall t :: t in targets <==> t in chosen || Name(w.name, t, g.id) in ps)
  {
    var targets := TargetMap(ps, w.name, g.id, chosen);
    var r := ApplyAll(ps, w.name, g, targets);
    forall t
      ensures t in targets <==> t in chosen || Name(w.name, t, g.id) in ps
    {
      TargetMember(ps, w.name, g.id, t);
    }
    forall n: Name
      ensures n in Existing(r, w.name, g.id) <==> n == Name(w.name, n.target, g.id) && n.target in targets
      ensures n in Existing(r, w.name, g.id) ==>
        r[n] == Applied(r, n, g.workloads, n.target !in chosen) && r[n].workloads == g.workloads
        && (r[n].misplaced <==> n.target !in chosen) && r[n].target == n.target
    {
      AppliedAt(ps, w.name, g, targets, n);
      ScheduledTwice(if n in ps then ps[n].conditions else NoConditions, n.target !in chosen);
    }
  }

  /** A finished pass over a group leaves it settled, with the status it reports. */
  lemma GroupPassSettles(ps: Placements, dests: seq<Destination>, w: Work, g: Group, roll: nat)
    requires GroupNamed(ps, w.name, g.id) && GroupPass(ps, dests, w, g, roll).Done?
    ensures var r := GroupPass(ps, dests, w, g, roll);
      SettledGroup(r.placements, dests, w, g) && r.status == LocalStatus(r.placements, dests, w, g)
  {
    var r, existing, allowed := GroupPass(ps, dests, w, g, roll), Existing(ps, w.name, g.id), Allowed(dests, g);
    if w.resource && existing != {} {
      UpdateSettles(ps, w, g, allowed);
    } else {
      var chosen := Chosen(EligibleNames(dests, Resolve(g.selectors)), w.resource, roll);
      ChosenIsAllowed(dests, g, w.resource, roll);
      var targets := TargetMap(ps, w.name, g.id, chosen);
      if targets == map[] {
        EmptyTargets(ps, w, g, chosen);
      } else {
        ApplySettles(ps, dests, w, g, chosen);
      }
    }
  }

  lemma UpdateSettles(ps: Placements, w: Work, g: Group, allowed: set<string>)
    ensures var existing := Existing(ps, w.name, g.id);
      var r := UpdateAll(ps, existing, g, allowed);
      && Existing(r, w.name, g.id) == existing
      && forall n :: n in existing ==> r[n].target == ps[n].target && r[n] == Refreshed(r[n], g.workloads, r[n].target !in allowed)
  {
    var existing := Existing(ps, w.name, g.id);
    forall n | n in existing
      ensures var p := Refreshed(ps[n], g.workloads, ps[n].target !in allowed); p == Refreshed(p, g.workloads, ps[n].target !in allowed)
    {
      ScheduledTwice(ps[n].conditions, ps[n].target !in allowed);
    }
  }

  lemma EmptyTargets(ps: Placements, w: Work, g: Group, chosen: set<string>)
    requires GroupNamed(ps, w.name, g.id) && TargetMap(ps, w.name, g.id, chosen) == map[]
    ensures chosen == {} && Existing(ps, w.name, g.id) == {}
  {
    var targets := TargetMap(ps, w.name, g.id, chosen);
    forall t
      ensures t !in chosen && Name(w.name, t, g.id) !in ps
    {
      assert t !in targets;
      TargetMember(ps, w.name, g.id, t);
    }
    assert forall n :: n in Existing(ps, w.name, g.id) ==> n == Name(w.name, n.target, g.id);
  }

  lemma ApplySettles(ps: Placements, dests: seq<Destination>, w: Work, g: Group, chosen: set<string>)
    requires GroupNamed(ps, w.name, g.id)
    requires chosen <= Allowed(dests, g) && (chosen == {} <==> Allowed(dests, g) == {})
    requires !w.resource ==> chosen == Allowed(dests, g)
    requires w.resource ==> Existing(ps, w.name, g.id) == {}
    requires TargetMap(ps, w.name, g.id, chosen) != map[]
    ensures var targets := TargetMap(ps, w.name, g.id, chosen);
      var r := ApplyAll(ps, w.name, g, targets);
      && SettledGroup(r, dests, w, g)
      && LocalStatus(r, dests, w, g) == if exists t :: t in targets && targets[t] then OffTarget else OnTarget
  {
    var targets := TargetMap(ps, w.name, g.id, chosen);
    var r := ApplyAll(ps, w.name, g, targets);
    ApplyBranch(ps, w, g, chosen);
    var existing := Existing(r, w.name, g.id);
    forall t | t in targets
      ensures Name(w.name, t, g.id) in existing && targets[t] == (t !in Allowed(dests, g))
    {
      assert w.resource ==> Name(w.name, t, g.id) !in Existing(ps, w.name, g.id);
    }
    forall n | n in existing
      ensures n.target in targets && (n.target !in chosen <==> n.target !in Allowed(dests, g))
    {
    }
    assert existing != {} by {
      var t :| t in targets;
      assert Name(w.name, t, g.id) in existing;
    }
    assert (exists n :: n in existing && r[n].target !in Allowed(dests, g)) <==> (exists t :: t in targets && targets[t]) by {
      if t :| t in targets && targets[t] {
        assert Name(w.name, t, g.id).target == t;
      }
    }
  }

  /** A settled group is a fixed point, whatever the dice say. */
  lemma SettledIsFixed(ps: Placements, dests: seq<Destination>, w: Work, g: Group, roll: nat)
    requires SettledGroup(ps, dests, w, g)
    ensures GroupPass(ps, dests, w, g, roll) == Done(ps, LocalStatus(ps, dests, w, g))
  {
    if Existing(ps, w.name, g.id) == {} {
      UnplacedIsFixed(ps, dests, w, g, roll);
    } else if w.resource {
      assert UpdateAll(ps, Existing(ps, w.name, g.id), g, Allowed(dests, g)) == ps;
    } else {
      DependencyIsFixed(ps, dests, w, g, roll);
    }
  }

  lemma DependencyIsFixed(ps: Placements, dests: seq<Destination>, w: Work, g: Group, roll: nat)
    requires SettledGroup(ps, dests, w, g) && !w.resource && Existing(ps, w.name, g.id) != {}
    ensures GroupPass(ps, dests, w, g, roll) == Done(ps, LocalStatus(ps, dests, w, g))
  {
    ChosenIsAllowed(dests, g, false, roll);
    PlacedAgain(ps, dests, w, g);
  }

  lemma PlacedAgain(ps: Placements, dests: seq<Destination>, w: Work, g: Group)
    requires SettledGroup(ps, dests, w, g) && !w.resource && Existing(ps, w.name, g.id) != {}
    ensures PlacePass(ps, w, g, TargetMap(ps, w.name, g.id, Allowed(dests, g))) == Done(ps, LocalStatus(ps, dests, w, g))
  {
    FixedTargets(ps, dests, w, g);
    FixedPlacements(ps, dests, w, g);
  }

  lemma UnplacedIsFixed(ps: Placements, dests: seq<Destination>, w: Work, g: Group, roll: nat)
    requires SettledGroup(ps, dests, w, g) && Existing(ps, w.name, g.id) == {}
    ensures GroupPass(ps, dests, w, g, roll) == Done(ps, NoTarget)
  {
    ChosenIsAllowed(dests, g, w.resource, roll);
    forall t | t in Allowed(dests, g)
      ensures w.resource
    {
      assert Name(w.name, t, g.id) !in Existing(ps, w.name, g.id);
    }
    assert Allowed(dests, g) == {};
    assert TargetsOf(ps, w.name, g.id) == {};
    assert TargetMap(ps, w.name, g.id, {}) == map[];
  }

  lemma FixedTargets(ps: Placements, dests: seq<Destination>, w: Work, g: Group)
    requires SettledGroup(ps, dests, w, g) && !w.resource && Existing(ps, w.name, g.id) != {}
    ensures var targets := TargetMap(ps, w.name, g.id, Allowed(dests, g));
      && targets != map[]
      && (forall t :: t in targets <==> Name(w.name, t, g.id) in ps)
      && (forall t :: t in targets ==> targets[t] == (t !in Allowed(dests, g)))
      && (forall t :: t in targets ==> !Refuses(ps, Name(w.name, t, g.id)))
      && ((exists t :: t in targets && targets[t]) <==> LocalStatus(ps, dests, w, g).OffTarget?)
  {
    var allowed, existing := Allowed(dests, g), Existing(ps, w.name, g.id);
    var targets := TargetMap(ps, w.name, g.id, allowed);
    forall t
      ensures t in targets <==> Name(w.name, t, g.id) in ps
      ensures t in targets ==> !Refuses(ps, Name(w.name, t, g.id))
    {
      TargetMember(ps, w.name, g.id, t);
      assert Name(w.name, t, g.id) in ps ==> Name(w.name, t, g.id) in existing;
    }
    forall n | n in existing
      ensures n.target in targets
    {
      assert n == Name(w.name, n.target, g.id);
    }
    assert (exists t :: t in targets && targets[t]) ==> exists n :: n in existing && ps[n].target !in allowed by {
      if t :| t in targets && targets[t] {
        assert Name(w.name, t, g.id) in existing && Name(w.name, t, g.id).target == t;
      }
    }
  }

  lemma FixedPlacements(ps: Placements, dests: seq<Destination>, w: Work, g: Group)
    requires SettledGroup(ps, dests, w, g) && !w.resource && Existing(ps, w.name, g.id) != {}
    ensures ApplyAll(ps, w.name, g, TargetMap(ps, w.name, g.id, Allowed(dests, g))) == ps
  {
    var targets := TargetMap(ps, w.name, g.id, Allowed(dests, g));
    var r := ApplyAll(ps, w.name, g, targets);
    FixedTargets(ps, dests, w, g);
    forall n: Name
      ensures n in r <==> n in ps
      ensures n in r ==> r[n] == ps[n]
    {
      AppliedAt(ps, w.name, g, targets, n);
      if n.work == w.name && n.group == g.id && n.target in targets {
        assert n == Name(w.name, n.target, g.id);
        assert n in Existing(ps, w.name, g.id);
      }
    }
  }

  /** Both are settled alike when they have the same placements of the group. */
  lemma SettledIsLocal(a: Placements, b: Placements, dests: seq<Destination>, w: Work, g: Group)
    requires forall n: Name :: n.work == w.name && n.group == g.id ==> (n in a <==> n in b) && (n in a ==> a[n] == b[n])
    ensures SettledGroup(a, dests, w, g) ==> SettledGroup(b, dests, w, g)
    ensures LocalStatus(a, dests, w, g) == LocalStatus(b, dests, w, g)
  {
    assert Existing(a, w.name, g.id) == Existing(b, w.name, g.id);
  }

  // ------------------------------------------------------ the whole Work

  /** The IDs of the groups with a given status. */
  function Collect(ps: Placements, dests: seq<Destination>, w: Work, groups: seq<Group>, status: GroupStatus): (ids: seq<string>)
    ensures |ids| <= |groups|
  {
    if groups == [] then []
    else
      var rest, g := Collect(ps, dests, w, groups[..|groups| - 1], status), groups[|groups| - 1];
      if LocalStatus(ps, dests, w, g) == status then rest + [g.id] else rest
  }

  /** The two agree on the placements of these groups. */
  ghost predicate SameGroups(a: Placements, b: Placements, work: string, groups: seq<Group>) {
    forall i, n: Name :: 0 <= i < |groups| && n.work == work && n.group == groups[i].id ==>
      (n in a <==> n in b) && (n in a ==> a[n] == b[n])
  }

  lemma {:induction false} CollectIsLocal(a: Placements, b: Placements, dests: seq<Destination>, w: Work, groups: seq<Group>, status: GroupStatus)
    requires SameGroups(a, b, w.name, groups)
    ensures Collect(a, dests, w, groups, status) == Collect(b, dests, w, groups, status)
  {
    if groups != [] {
      var front, g := groups[..|groups| - 1], groups[|groups| - 1];
      assert forall i :: 0 <= i < |front| ==> front[i] == groups[i];
      CollectIsLocal(a, b, dests, w, front, status);
      SettledIsLocal(a, b, dests, w, g);
    }
  }

  ghost predicate AllSettled(ps: Placements, dests: seq<Destination>, w: Work, groups: seq<Group>) {
    forall i :: 0 <= i < |groups| ==> SettledGroup(ps, dests, w, groups[i])
  }

  lemma AllSettledIsLocal(a: Placements, b: Placements, dests: seq<Destination>, w: Work, groups: seq<Group>)
    requires SameGroups(a, b, w.name, groups) && AllSettled(a, dests, w, groups)
    ensures AllSettled(b, dests, w, groups)
  {
    forall i | 0 <= i < |groups|
      ensures SettledGroup(b, dests, w, groups[i])
    {
      SettledIsLocal(a, b, dests, w, groups[i]);
    }
  }

  /** Nothing outside the groups differs. */
  ghost predicate FramedBy(a: Placements, b: Placements, work: string, groups: seq<Group>) {
    forall n: Name :: n.work != work || (forall i :: 0 <= i < |groups| ==> n.group != groups[i].id) ==>
      (n in a <==> n in b) && (n in a ==> b[n] == a[n])
  }

  /** A pass settles what it touches and touches nothing else. */
  ghost predicate Settles(pass: (Placements, Group) -> GroupResult, dests: seq<Destination>, w: Work) {
    forall ps, g :: Named(ps) && pass(ps, g).Done? ==>
      && Named(pass(ps, g).placements)
      && SettledGroup(pass(ps, g).placements, dests, w, g)
      && pass(ps, g).status == LocalStatus(pass(ps, g).placements, dests, w, g)
      && GroupFramed(ps, pass(ps, g).placements, w.name, g.id)
  }

  ghost predicate FixesSettled(pass: (Placements, Group) -> GroupResult, dests: seq<Destination>, w: Work) {
    forall ps, g :: SettledGroup(ps, dests, w, g) ==> pass(ps, g) == Done(ps, LocalStatus(ps, dests, w, g))
  }

  lemma PassSettles(dests: seq<Destination>, w: Work, roll: string -> nat)
    ensures Settles(PassOf(dests, w, roll), dests, w)
    ensures FixesSettled(PassOf(dests, w, roll), dests, w)
  {
    forall ps, g | Named(ps) && PassOf(dests, w, roll)(ps, g).Done?
      ensures Named(PassOf(dests, w, roll)(ps, g).placements)
      ensures SettledGroup(PassOf(dests, w, roll)(ps, g).placements, dests, w, g)
      ensures PassOf(dests, w, roll)(ps, g).status == LocalStatus(PassOf(dests, w, roll)(ps, g).placements, dests, w, g)
      ensures GroupFramed(ps, PassOf(dests, w, roll)(ps, g).placements, w.name, g.id)
    {
      GroupPassKeepsNamed(ps, dests, w, g, roll(g.id));
      GroupPassSettles(ps, dests, w, g, roll(g.id));
      GroupPassIsFramed(ps, dests, w, g, roll(g.id));
    }
    forall ps, g | SettledGroup(ps, dests, w, g)
      ensures PassOf(dests, w, roll)(ps, g) == Done(ps, LocalStatus(ps, dests, w, g))
    {
      SettledIsFixed(ps, dests, w, g, roll(g.id));
    }
  }

  lemma OthersKept(mid: Placements, end: Placements, work: string, groups: seq<Group>)
    requires groups != [] && DistinctGroups(groups)
    requires GroupFramed(mid, end, work, groups[|groups| - 1].id)
    ensures SameGroups(mid, end, work, groups[..|groups| - 1])
  {
  }

  lemma OneMoreFrame(ps: Placements, mid: Placements, end: Placements, work: string, groups: seq<Group>)
    requires groups != [] && FramedBy(ps, mid, work, groups[..|groups| - 1])
    requires GroupFramed(mid, end, work, groups[|groups| - 1].id)
    ensures FramedBy(ps, end, work, groups)
  {
    var front := groups[..|groups| - 1];
    forall n: Name | n.work != work || (forall i :: 0 <= i < |groups| ==> n.group != groups[i].id)
      ensures (n in ps <==> n in end) && (n in ps ==> end[n] == ps[n])
    {
      assert n.work == work ==> n.group != groups[|groups| - 1].id;
      assert n.work == work ==> forall i :: 0 <= i < |front| ==> n.group != front[i].id;
    }
  }

  /** The reported lists are what the placements show. */
  predicate Reports(r: PassResult, dests: seq<Destination>, w: Work, groups: seq<Group>) {
    && r.Passed?
    && r.unscheduled == Collect(r.placements, dests, w, groups, NoTarget)
    && r.misplaced == Collect(r.placements, dests, w, groups, OffTarget)
  }

  lemma OneMoreSettled(mid: Placements, end: Placements, dests: seq<Destination>, w: Work, groups: seq<Group>)
    requires groups != [] && DistinctGroups(groups) && GroupFramed(mid, end, w.name, groups[|groups| - 1].id)
    requires AllSettled(mid, dests, w, groups[..|groups| - 1]) && SettledGroup(end, dests, w, groups[|groups| - 1])
    ensures AllSettled(end, dests, w, groups)
  {
    var front := groups[..|groups| - 1];
    OthersKept(mid, end, w.name, groups);
    AllSettledIsLocal(mid, end, dests, w, front);
    assert forall i :: 0 <= i < |front| ==> front[i] == groups[i];
  }

  lemma OneMoreReport(mid: Placements, end: Placements, dests: seq<Destination>, w: Work, groups: seq<Group>, status: GroupStatus)
    requires groups != [] && DistinctGroups(groups) && GroupFramed(mid, end, w.name, groups[|groups| - 1].id)
    ensures var rest, g := Collect(mid, dests, w, groups[..|groups| - 1], status), groups[|groups| - 1];
      Collect(end, dests, w, groups, status) == if LocalStatus(end, dests, w, g) == status then rest + [g.id] else rest
  {
    OthersKept(mid, end, w.name, groups);
    CollectIsLocal(mid, end, dests, w, groups[..|groups| - 1], status);
  }

  lemma {:induction false} GroupsPassKeepsNamed(ps: Placements, dests: seq<Destination>, w: Work, groups: seq<Group>, pass: (Placements, Group) -> GroupResult)
    requires Named(ps) && Settles(pass, dests, w) && GroupsPass(ps, groups, pass).Passed?
    ensures Named(GroupsPass(ps, groups, pass).placements)
  {
    if groups != [] {
      var front, g := groups[..|groups| - 1], groups[|groups| - 1];
      GroupsPassKeepsNamed(ps, dests, w, front, pass);
      assert pass(GroupsPass(ps, front, pass).placements, g).Done?;
    }
  }

  /** After the groups' passes each of them is settled ... */
  lemma {:induction false} GroupsPassSettles(ps: Placements, dests: seq<Destination>, w: Work, groups: seq<Group>, pass: (Placements, Group) -> GroupResult)
    requires Named(ps) && DistinctGroups(groups) && Settles(pass, dests, w) && GroupsPass(ps, groups, pass).Passed?
    ensures AllSettled(GroupsPass(ps, groups, pass).placements, dests, w, groups)
  {
    if groups != [] {
      var front, g := groups[..|groups| - 1], groups[|groups| - 1];
      GroupsPassSettles(ps, dests, w, front, pass);
      GroupsPassKeepsNamed(ps, dests, w, front, pass);
      var mid := GroupsPass(ps, front, pass).placements;
      assert pass(mid, g).Done?;
      OneMoreSettled(mid, pass(mid, g).placements, dests, w, groups);
    }
  }

  /** ... the reported lists are what the placements show ... */
  lemma {:induction false} GroupsPassReports(ps: Placements, dests: seq<Destination>, w: Work, groups: seq<Group>, pass: (Placements, Group) -> GroupResult)
    requires Named(ps) && DistinctGroups(groups) && Settles(pass, dests, w) && GroupsPass(ps, groups, pass).Passed?
    ensures Reports(GroupsPass(ps, groups, pass), dests, w, groups)
  {
    if groups != [] {
      var front, g := groups[..|groups| - 1], groups[|groups| - 1];
      GroupsPassReports(ps, dests, w, front, pass);
      GroupsPassKeepsNamed(ps, dests, w, front, pass);
      var mid := GroupsPass(ps, front, pass).placements;
      assert pass(mid, g).Done?;
      OneMoreReport(mid, pass(mid, g).placements, dests, w, groups, NoTarget);
      OneMoreReport(mid, pass(mid, g).placements, dests, w, groups, OffTarget);
    }
  }

  /** ... and nothing outside these groups has changed. */
  lemma {:induction false} GroupsPassIsFramed(ps: Placements, dests: seq<Destination>, w: Work, groups: seq<Group>, pass: (Placements, Group) -> GroupResult)
    requires Named(ps) && Settles(pass, dests, w) && GroupsPass(ps, groups, pass).Passed?
    ensures FramedBy(ps, GroupsPass(ps, groups, pass).placements, w.name, groups)
  {
    if groups != [] {
      var front, g := groups[..|groups| - 1], groups[|groups| - 1];
      GroupsPassIsFramed(ps, dests, w, front, pass);
      GroupsPassKeepsNamed(ps, dests, w, front, pass);
      var mid := GroupsPass(ps, front, pass).placements;
      assert pass(mid, g).Done?;
      OneMoreFrame(ps, mid, pass(mid, g).placements, w.name, groups);
    }
  }

  lemma {:induction false} SettledPassIsFixed(ps: Placements, dests: seq<Destination>, w: Work, groups: seq<Group>, pass: (Placements, Group) -> GroupResult)
    requires FixesSettled(pass, dests, w) && AllSettled(ps, dests, w, groups)
    ensures GroupsPass(ps, groups, pass)
         == Passed(ps, Collect(ps, dests, w, groups, NoTarget), Collect(ps, dests, w, groups, OffTarget))
  {
    if groups != [] {
      var front := groups[..|groups| - 1];
      assert forall i :: 0 <= i < |front| ==> front[i] == groups[i];
      SettledPassIsFixed(ps, dests, w, front, pass);
    }
  }

  lemma DroppingKeepsGroups(ps: Placements, dests: seq<Destination>, w: Work)
    requires AllSettled(ps, dests, w, w.groups)
    ensures var r := DropDangling(ps, w);
      && AllSettled(r, dests, w, w.groups)
      && Collect(r, dests, w, w.groups, NoTarget) == Collect(ps, dests, w, w.groups, NoTarget)
      && Collect(r, dests, w, w.groups, OffTarget) == Collect(ps, dests, w, w.groups, OffTarget)
  {
    var r := DropDangling(ps, w);
    assert SameGroups(ps, r, w.name, w.groups);
    AllSettledIsLocal(ps, r, dests, w, w.groups);
    CollectIsLocal(ps, r, dests, w, w.groups, NoTarget);
    CollectIsLocal(ps, r, dests, w, w.groups, OffTarget);
  }

  /** ReconcileWork is idempotent: an error-free pass followed by another one over the same
      destinations changes no placement, label, target or condition and reports the same groups,
      even with other random choices. */
  lemma WorkPassIsIdempotent(ps: Placements, dests: seq<Destination>, w: Work, roll: string -> nat, roll': string -> nat)
    requires Named(ps) && DistinctGroups(w.groups) && WorkPass(ps, dests, w, roll).Passed?
    ensures var r := WorkPass(ps, dests, w, roll);
      WorkPass(r.placements, dests, w, roll') == r
  {
    PassSettles(dests, w, roll);
    PassSettles(dests, w, roll');
    IdempotentPass(ps, dests, w, PassOf(dests, w, roll), PassOf(dests, w, roll'));
  }

  lemma IdempotentPass(ps: Placements, dests: seq<Destination>, w: Work, pass: (Placements, Group) -> GroupResult, pass': (Placements, Group) -> GroupResult)
    requires Named(ps) && DistinctGroups(w.groups) && Settles(pass, dests, w) && FixesSettled(pass', dests, w)
    requires GroupsPass(ps, w.groups, pass).Passed?
    ensures var r := GroupsPass(ps, w.groups, pass);
      var end := DropDangling(r.placements, w);
      GroupsPass(end, w.groups, pass') == r.(placements := end) && DropDangling(end, w) == end
  {
    var mid := GroupsPass(ps, w.groups, pass).placements;
    GroupsPassSettles(ps, dests, w, w.groups, pass);
    GroupsPassReports(ps, dests, w, w.groups, pass);
    DroppingKeepsGroups(mid, dests, w);
    SettledPassIsFixed(DropDangling(mid, w), dests, w, w.groups, pass');
    DroppedTwice(mid, w);
  }

  lemma DroppedTwice(ps: Placements, w: Work)
    ensures DropDangling(DropDangling(ps, w), w) == DropDangling(ps, w)
  {
  }

  /** After an error-free pass every placement of the Work that is not being deleted belongs to a
      current group; placements of other Works are untouched; the counters are in range. */
  lemma WorkPassIsFramed(ps: Placements, dests: seq<Destination>, w: Work, roll: string -> nat)
    requires Named(ps) && DistinctGroups(w.groups) && WorkPass(ps, dests, w, roll).Passed?
    ensures var r := WorkPass(ps, dests, w, roll);
      && (forall n: Name :: n in r.placements && n.work == w.name && !r.placements[n].deleting ==>
            exists i :: 0 <= i < |w.groups| && w.groups[i].id == n.group)
      && (forall n: Name :: n.work != w.name ==>
            (n in ps <==> n in r.placements) && (n in ps ==> r.placements[n] == ps[n]))
      && 0 <= |w.groups| - |r.unscheduled| <= |w.groups|
  {
    PassSettles(dests, w, roll);
    GroupsPassReports(ps, dests, w, w.groups, PassOf(dests, w, roll));
    GroupsPassIsFramed(ps, dests, w, w.groups, PassOf(dests, w, roll));
  }

  // -------------------------------------------------------- dependency Works

  lemma DependencyGroup(ps: Placements, dests: seq<Destination>, w: Work, g: Group, roll: nat)
    requires GroupNamed(ps, w.name, g.id) && !w.resource && GroupPass(ps, dests, w, g, roll).Done?
    ensures var r := GroupPass(ps, dests, w, g, roll).placements;
      && TargetsOf(r, w.name, g.id) == Allowed(dests, g) + TargetsOf(ps, w.name, g.id)
      && forall n :: n in Existing(r, w.name, g.id) ==>
           r[n].workloads == g.workloads && (r[n].misplaced <==> r[n].target !in Allowed(dests, g))
  {
    var r, allowed := GroupPass(ps, dests, w, g, roll).placements, Allowed(dests, g);
    var chosen := Chosen(EligibleNames(dests, Resolve(g.selectors)), w.resource, roll);
    ChosenIsAllowed(dests, g, w.resource, roll);
    if TargetMap(ps, w.name, g.id, chosen) == map[] {
      EmptyTargets(ps, w, g, chosen);
    } else {
      ApplyBranch(ps, w, g, chosen);
      forall t
        ensures t in TargetsOf(r, w.name, g.id) <==> t in allowed || t in TargetsOf(ps, w.name, g.id)
      {
        TargetMember(r, w.name, g.id, t);
        TargetMember(ps, w.name, g.id, t);
        assert Name(w.name, t, g.id) in Existing(r, w.name, g.id) <==> Name(w.name, t, g.id) in r;
      }
    }
  }

  lemma TargetsAreLocal(a: Placements, b: Placements, work: string, group: string)
    requires forall n: Name :: n.work == work && n.group == group ==> (n in a <==> n in b) && (n in a ==> a[n].target == b[n].target)
    ensures TargetsOf(a, work, group) == TargetsOf(b, work, group)
    ensures Existing(a, work, group) == Existing(b, work, group)
  {
    assert Existing(a, work, group) == Existing(b, work, group);
  }

  ghost predicate Equation(ps: Placements, r: Placements, dests: seq<Destination>, w: Work, g: Group) {
    && TargetsOf(r, w.name, g.id) == Allowed(dests, g) + TargetsOf(ps, w.name, g.id)
    && forall n :: n in Existing(r, w.name, g.id) ==>
         r[n].workloads == g.workloads && (r[n].misplaced <==> r[n].target !in Allowed(dests, g))
  }

  ghost predicate Solves(pass: (Placements, Group) -> GroupResult, dests: seq<Destination>, w: Work) {
    forall ps, g :: Named(ps) && pass(ps, g).Done? ==> Equation(ps, pass(ps, g).placements, dests, w, g)
  }

  lemma EquationIsLocal(ps: Placements, ps': Placements, r: Placements, r': Placements, dests: seq<Destination>, w: Work, g: Group)
    requires Equation(ps, r, dests, w, g)
    requires forall n: Name :: n.work == w.name && n.group == g.id ==> (n in ps <==> n in ps') && (n in ps ==> ps[n] == ps'[n])
    requires forall n: Name :: n.work == w.name && n.group == g.id ==> (n in r <==> n in r') && (n in r ==> r[n] == r'[n])
    ensures Equation(ps', r', dests, w, g)
  {
    TargetsAreLocal(ps, ps', w.name, g.id);
    TargetsAreLocal(r, r', w.name, g.id);
  }

  lemma {:induction false} EquationForAll(ps: Placements, dests: seq<Destination>, w: Work, groups: seq<Group>, pass: (Placements, Group) -> GroupResult, j: nat)
    requires Named(ps) && DistinctGroups(groups) && Settles(pass, dests, w) && Solves(pass, dests, w)
    requires GroupsPass(ps, groups, pass).Passed? && j < |groups|
    ensures Equation(ps, GroupsPass(ps, groups, pass).placements, dests, w, groups[j])
    decreases |groups|
  {
    var front, g := groups[..|groups| - 1], groups[|groups| - 1];
    var mid := GroupsPass(ps, front, pass).placements;
    var end := pass(mid, g).placements;
    GroupsPassIsFramed(ps, dests, w, front, pass);
    GroupsPassKeepsNamed(ps, dests, w, front, pass);
    if j == |groups| - 1 {
      EquationOfLast(ps, mid, end, dests, w, groups);
    } else {
      EquationForAll(ps, dests, w, front, pass, j);
      assert front[j] == groups[j] && groups[j].id != g.id;
      EquationIsLocal(ps, ps, mid, end, dests, w, groups[j]);
    }
  }

  lemma EquationOfLast(ps: Placements, mid: Placements, end: Placements, dests: seq<Destination>, w: Work, groups: seq<Group>)
    requires groups != [] && DistinctGroups(groups) && FramedBy(ps, mid, w.name, groups[..|groups| - 1])
    requires Equation(mid, end, dests, w, groups[|groups| - 1])
    ensures Equation(ps, end, dests, w, groups[|groups| - 1])
  {
    var front, g := groups[..|groups| - 1], groups[|groups| - 1];
    assert forall i :: 0 <= i < |front| ==> front[i].id != g.id;
    EquationIsLocal(mid, ps, end, end, dests, w, g);
  }

  lemma DependencySolves(dests: seq<Destination>, w: Work, roll: string -> nat)
    requires !w.resource
    ensures Solves(PassOf(dests, w, roll), dests, w)
  {
    forall ps, g | Named(ps) && PassOf(dests, w, roll)(ps, g).Done?
      ensures Equation(ps, PassOf(dests, w, roll)(ps, g).placements, dests, w, g)
    {
      DependencyGroup(ps, dests, w, g, roll(g.id));
    }
  }

  /** After an error-free pass over a dependency Work every group sits on exactly the eligible
      destinations and its previous targets, one placement each, all with the group's current
      workloads, and labelled misplaced exactly where the target is not eligible. */
  lemma DependencyEquation(ps: Placements, dests: seq<Destination>, w: Work, roll: string -> nat, j: nat)
    requires Named(ps) && DistinctGroups(w.groups) && !w.resource && WorkPass(ps, dests, w, roll).Passed? && j < |w.groups|
    ensures Equation(ps, WorkPass(ps, dests, w, roll).placements, dests, w, w.groups[j])
  {
    PassSettles(dests, w, roll);
    DependencySolves(dests, w, roll);
    var mid := GroupsPass(ps, w.groups, PassOf(dests, w, roll)).placements;
    EquationForAll(ps, dests, w, w.groups, PassOf(dests, w, roll), j);
    EquationIsLocal(ps, ps, mid, DropDangling(mid, w), dests, w, w.groups[j]);
  }

  // ---------------------------------------------------------- resource Works

  /** One thing that happens to the placements: a part of some Work's pass, cut short or not, with
      whatever selectors and destinations there are then; another controller's update of one placement,
      which leaves its target and its misplaced label alone; or the end of a placement. */
  datatype Event =
    | Pass(w: Work, dests: seq<Destination>, cut: Cut)
    | Touch(n: Name, p: Placement)
    | Gone(n: Name)

  /** Whether a Work is a resource request never changes. */
  ghost predicate Enabled(isResource: string -> bool, ps: Placements, e: Event) {
    match e
    case Pass(w, _, _) => w.resource == isResource(w.name)
    case Touch(n, p) => n in ps && p.target == ps[n].target && p.misplaced == ps[n].misplaced
    case Gone(_) => true
  }

  function Step(ps: Placements, e: Event): Placements {
    match e
    case Pass(w, dests, cut) => CutStep(ps, dests, w, cut)
    case Touch(n, p) => if n in ps then ps[n := p] else ps
    case Gone(n) => ps - {n}
  }

  ghost predicate Legal(isResource: string -> bool, ps: Placements, events: seq<Event>)
    decreases |events|
  {
    events == [] || (Enabled(isResource, ps, events[0]) && Legal(isResource, Step(ps, events[0]), events[1..]))
  }

  function After(ps: Placements, events: seq<Event>): Placements
    decreases |events|
  {
    if events == [] then ps else After(Step(ps, events[0]), events[1..])
  }

  ghost predicate OnePerGroup(isResource: string -> bool, ps: Placements) {
    forall m, n :: m in ps && n in ps && m.work == n.work && m.group == n.group && isResource(m.work) ==> m == n
  }

  lemma CutKeepsOne(isResource: string -> bool, ps: Placements, dests: seq<Destination>, w: Work, g: Group, roll: nat, refused: set<Name>, mute: set<Name>)
    requires OnePerGroup(isResource, ps) && w.resource == isResource(w.name)
    ensures OnePerGroup(isResource, CutPass(ps, dests, w, g, roll, refused, mute))
  {
    CutIsFramed(ps, dests, w, g, roll, refused, mute);
    if w.resource {
      ResourceKeys(ps, dests, w, g, roll, refused, mute);
    }
    FramedKeepsOne(isResource, ps, CutPass(ps, dests, w, g, roll, refused, mute), w, g);
  }

  /** A resource group's pass adds one name to an empty group, or none. */
  ghost predicate AddsOne(ps: Placements, r: Placements, w: Work, g: Group) {
    r.Keys != ps.Keys ==> Existing(ps, w.name, g.id) == {} && exists t :: r.Keys == ps.Keys + {Name(w.name, t, g.id)}
  }

  lemma ResourceKeys(ps: Placements, dests: seq<Destination>, w: Work, g: Group, roll: nat, refused: set<Name>, mute: set<Name>)
    requires w.resource
    ensures AddsOne(ps, CutPass(ps, dests, w, g, roll, refused, mute), w, g)
  {
    if Existing(ps, w.name, g.id) == {} {
      var chosen := Chosen(EligibleNames(dests, Resolve(g.selectors)), true, roll);
      ChosenIsAllowed(dests, g, true, roll);
      FreshTargets(ps, w, g, chosen);
      FreshKeys(ps, w, g, TargetMap(ps, w.name, g.id, chosen), refused, mute);
    }
  }

  /** At most one target adds at most one name. */
  lemma FreshKeys(ps: Placements, w: Work, g: Group, targets: map<string, bool>, refused: set<Name>, mute: set<Name>)
    requires targets == map[] || exists t :: targets.Keys == {t}
    ensures var r := ApplySome(ps, w.name, g, targets, refused, mute);
      r.Keys == ps.Keys || exists t :: r.Keys == ps.Keys + {Name(w.name, t, g.id)}
  {
    var r := ApplySome(ps, w.name, g, targets, refused, mute);
    if targets == map[] {
      assert r.Keys == ps.Keys;
    } else {
      var t :| targets.Keys == {t};
      var m := Name(w.name, t, g.id);
      assert forall u :: u in targets <==> u == t;
      forall n: Name
        ensures n in r ==> n in ps || n == m
        ensures n in ps ==> n in r
      {
        AppliedSomeAt(ps, w.name, g, targets, refused, mute, n);
      }
      assert if m in r then r.Keys == ps.Keys + {m} else r.Keys == ps.Keys;
    }
  }

  /** It takes one new name in an empty group, or none, to keep one per group. */
  lemma FramedKeepsOne(isResource: string -> bool, ps: Placements, r: Placements, w: Work, g: Group)
    requires OnePerGroup(isResource, ps) && GroupFramed(ps, r, w.name, g.id)
    requires isResource(w.name) ==> AddsOne(ps, r, w, g)
    ensures OnePerGroup(isResource, r)
  {
    if isResource(w.name) {
      if r.Keys == ps.Keys {
        assert forall n :: n in r ==> n in ps;
      } else {
        var t :| r.Keys == ps.Keys + {Name(w.name, t, g.id)};
        assert forall n :: n in r ==> n in ps || n == Name(w.name, t, g.id);
        assert forall n :: n in ps && n.work == w.name && n.group == g.id ==> n in Existing(ps, w.name, g.id);
      }
    }
  }

  lemma {:induction false} RunKeepsOne(isResource: string -> bool, ps: Placements, events: seq<Event>)
    requires OnePerGroup(isResource, ps) && Legal(isResource, ps, events)
    ensures OnePerGroup(isResource, After(ps, events))
    decreases |events|
  {
    if events != [] {
      match events[0] {
        case Pass(w, dests, cut) =>
          if cut.GroupCut? {
            CutKeepsOne(isResource, ps, dests, w, cut.g, cut.roll, cut.refused, cut.mute);
          }
        case _ =>
      }
      RunKeepsOne(isResource, Step(ps, events[0]), events[1..]);
    }
  }

  /** Whatever else happens, a placement that is not gone keeps its target. */
  lemma StepKeepsTarget(ps: Placements, e: Event, m: Name, isResource: string -> bool)
    requires Named(ps) && m in ps && e != Gone(m) && Enabled(isResource, ps, e)
    ensures m in Step(ps, e) && Step(ps, e)[m].target == ps[m].target && Named(Step(ps, e))
  {
    match e
    case Pass(w, dests, cut) =>
      CutKeepsNamed(ps, dests, w, cut);
      CutKeepsAll(ps, dests, w, cut, m);
    case _ =>
  }

  lemma {:induction false} RunKeepsNamed(isResource: string -> bool, ps: Placements, events: seq<Event>)
    requires Named(ps) && Legal(isResource, ps, events)
    ensures Named(After(ps, events))
    decreases |events|
  {
    if events != [] {
      match events[0] {
        case Pass(w, dests, cut) => CutKeepsNamed(ps, dests, w, cut);
        case _ =>
      }
      RunKeepsNamed(isResource, Step(ps, events[0]), events[1..]);
    }
  }

  lemma {:induction false} TargetIsKept(isResource: string -> bool, ps: Placements, events: seq<Event>, m: Name)
    requires Named(ps) && Legal(isResource, ps, events) && m in ps && Gone(m) !in events
    ensures m in After(ps, events) && After(ps, events)[m].target == ps[m].target
    decreases |events|
  {
    if events != [] {
      StepKeepsTarget(ps, events[0], m, isResource);
      TargetIsKept(isResource, Step(ps, events[0]), events[1..], m);
    }
  }

  /** From the moment a group of a resource Work has a placement until that placement is gone, it is
      the group's only one and its target is the same, whatever happens to selectors and labels. */
  lemma ResourceStickiness(isResource: string -> bool, before: seq<Event>, after: seq<Event>, m: Name)
    requires Legal(isResource, map[], before) && Legal(isResource, After(map[], before), after)
    requires isResource(m.work) && m in After(map[], before) && Gone(m) !in after
    ensures var s, t := After(map[], before), After(After(map[], before), after);
      Existing(t, m.work, m.group) == {m} && t[m].target == s[m].target
  {
    var s := After(map[], before);
    RunKeepsNamed(isResource, map[], before);
    TargetIsKept(isResource, s, after, m);
    RunKeepsOne(isResource, map[], before);
    RunKeepsOne(isResource, s, after);
  }

  // ------------------------------------------------- the misplaced label

  /** The event is a pass that finds the placement's target not eligible and gets its update through. */
  ghost predicate FindsOff(ps: Placements, e: Event, n: Name) {
    && e.Pass? && e.cut.GroupCut? && n in ps && n.work == e.w.name && n.group == e.cut.g.id
    && ps[n].target !in Allowed(e.dests, e.cut.g) && n !in e.cut.refused
  }

  /** One step sets the label when it finds the target not eligible, and never clears it. */
  lemma LabelStep(isResource: string -> bool, ps: Placements, e: Event, n: Name)
    requires Enabled(isResource, ps, e) && isResource(n.work) && n in Step(ps, e)
    ensures Step(ps, e)[n].misplaced <==> n in ps && (ps[n].misplaced || FindsOff(ps, e, n))
  {
    if e.Pass? && e.cut.GroupCut? {
      if e.w.name == n.work && e.cut.g.id == n.group {
        LabelPass(ps, e.dests, e.w, e.cut.g, e.cut.roll, e.cut.refused, e.cut.mute, n);
      } else {
        CutIsFramed(ps, e.dests, e.w, e.cut.g, e.cut.roll, e.cut.refused, e.cut.mute);
      }
    }
  }

  lemma LabelPass(ps: Placements, dests: seq<Destination>, w: Work, g: Group, roll: nat, refused: set<Name>, mute: set<Name>, n: Name)
    requires w.resource && n.work == w.name && n.group == g.id && n in CutPass(ps, dests, w, g, roll, refused, mute)
    ensures CutPass(ps, dests, w, g, roll, refused, mute)[n].misplaced <==>
      n in ps && (ps[n].misplaced || (ps[n].target !in Allowed(dests, g) && n !in refused))
  {
    if n in ps {
      assert n in Existing(ps, w.name, g.id);
    } else if Existing(ps, w.name, g.id) == {} {
      var chosen := Chosen(EligibleNames(dests, Resolve(g.selectors)), true, roll);
      FreshTargets(ps, w, g, chosen);
      AppliedSomeAt(ps, w.name, g, TargetMap(ps, w.name, g.id, chosen), refused, mute, n);
    }
  }

  lemma {:induction false} AfterFront(ps: Placements, events: seq<Event>)
    requires events != []
    ensures After(ps, events) == Step(After(ps, events[..|events| - 1]), events[|events| - 1])
    decreases |events|
  {
    if |events| > 1 {
      AfterFront(Step(ps, events[0]), events[1..]);
      assert events[1..][..|events| - 2] == events[..|events| - 1][1..];
    }
  }

  lemma {:induction false} LegalPrefix(isResource: string -> bool, ps: Placements, events: seq<Event>, k: nat)
    requires Legal(isResource, ps, events) && k <= |events|
    ensures Legal(isResource, ps, events[..k]) && Legal(isResource, After(ps, events[..k]), events[k..])
    ensures After(ps, events) == After(After(ps, events[..k]), events[k..])
    decreases |events|
  {
    if k > 0 {
      LegalPrefix(isResource, Step(ps, events[0]), events[1..], k - 1);
      assert events[..k][1..] == events[1..][..k - 1] && events[k..] == events[1..][k - 1..];
    }
  }

  /** Some pass since the placement last came into being found its target not eligible. */
  ghost predicate EverOff(events: seq<Event>, n: Name) {
    exists k :: OffSince(events, n, k)
  }

  ghost predicate OffSince(events: seq<Event>, n: Name, k: int) {
    0 <= k < |events| && FindsOff(After(map[], events[..k]), events[k], n) && Gone(n) !in events[k + 1..]
  }

  /** In every run a resource placement carries the misplaced label if and only if some pass since
      its creation found its target not eligible and got its update through, whether or not it is
      eligible again. */
  lemma {:induction false} LabelIff(isResource: string -> bool, events: seq<Event>, n: Name)
    requires Legal(isResource, map[], events) && isResource(n.work) && n in After(map[], events)
    ensures After(map[], events)[n].misplaced <==> EverOff(events, n)
    decreases |events|
  {
    if events != [] {
      var front, e := events[..|events| - 1], events[|events| - 1];
      var ps := After(map[], front);
      AfterFront(map[], events);
      LegalPrefix(isResource, map[], events, |events| - 1);
      assert events[|events| - 1..] == [e];
      assert e != Gone(n);
      LabelStep(isResource, ps, e, n);
      if n in ps {
        LabelIff(isResource, front, n);
        EverOffExtends(events, n);
      } else {
        NoneFoundOff(isResource, events, n);
      }
    }
  }

  lemma OffSinceExtends(events: seq<Event>, n: Name, k: nat)
    requires k + 1 < |events| && events[|events| - 1] != Gone(n)
    ensures OffSince(events, n, k) <==> OffSince(events[..|events| - 1], n, k)
  {
    var front, e := events[..|events| - 1], events[|events| - 1];
    assert events[..k] == front[..k] && events[k + 1..] == front[k + 1..] + [e];
  }

  lemma OffNow(events: seq<Event>, n: Name)
    requires events != []
    ensures OffSince(events, n, |events| - 1) <==> FindsOff(After(map[], events[..|events| - 1]), events[|events| - 1], n)
  {
    assert events[|events|..] == [];
  }

  lemma OffEarlier(events: seq<Event>, n: Name, k: int)
    requires events != [] && events[|events| - 1] != Gone(n) && k != |events| - 1
    ensures OffSince(events, n, k) <==> OffSince(events[..|events| - 1], n, k)
  {
    if 0 <= k < |events| - 1 {
      OffSinceExtends(events, n, k);
    }
  }

  lemma SplitLast(p: int -> bool, q: int -> bool, last: int)
    requires forall k :: k != last ==> (p(k) <==> q(k))
    requires !q(last)
    ensures (exists k :: p(k)) <==> (exists k :: q(k)) || p(last)
  {
    if k :| q(k) {
      assert p(k);
    }
  }

  lemma EverOffExtends(events: seq<Event>, n: Name)
    requires events != [] && events[|events| - 1] != Gone(n)
    ensures var front, e := events[..|events| - 1], events[|events| - 1];
      EverOff(events, n) <==> EverOff(front, n) || FindsOff(After(map[], front), e, n)
  {
    var front := events[..|events| - 1];
    forall k: int | k != |front|
      ensures OffSince(events, n, k) <==> OffSince(front, n, k)
    {
      OffEarlier(events, n, k);
    }
    OffNow(events, n);
    SplitLast(k => OffSince(events, n, k), k => OffSince(front, n, k), |front|);
  }

  /** A placement that has just been created was not there to be found before. */
  lemma NoneFoundOff(isResource: string -> bool, events: seq<Event>, n: Name)
    requires events != [] && Legal(isResource, map[], events) && n !in After(map[], events[..|events| - 1])
    ensures !EverOff(events, n)
  {
    var front := events[..|events| - 1];
    forall k | 0 <= k < |events| && n in After(map[], events[..k])
      ensures Gone(n) in events[k..|events| - 1]
    {
      LegalPrefix(isResource, map[], events, |events| - 1);
      assert front[..k] == events[..k] && front[k..] == events[k..|events| - 1];
      LegalPrefix(isResource, map[], front, k);
      RunKeepsNamed(isResource, map[], front[..k]);
      if Gone(n) !in front[k..] {
        TargetIsKept(isResource, After(map[], front[..k]), front[k..], n);
      }
    }
    forall k | 0 <= k < |events| && FindsOff(After(map[], events[..k]), events[k], n)
      ensures Gone(n) in events[k + 1..]
    {
      var tail := events[k..|events| - 1];
      var i :| 0 <= i < |tail| && tail[i] == Gone(n);
      assert i > 0 && events[k + 1..][i - 1] == Gone(n);
    }
  }

  /** A pass over a resource group that is not cut short. */
  function Whole(w: Work, g: Group, dests: seq<Destination>, roll: nat): Event {
    Pass(w, dests, GroupCut(g, roll, {}, {}))
  }

  lemma FirstPass(w: Work, g: Group, dests: seq<Destination>, roll: nat, t: string)
    requires w.resource && EligibleNames(dests, Resolve(g.selectors)) == [t]
    ensures var n, r := Name(w.name, t, g.id), Step(map[], Whole(w, g, dests, roll));
      n in r && r[n].target == t
  {
    var n := Name(w.name, t, g.id);
    var targets := TargetMap(map[], w.name, g.id, {t});
    assert Existing(map[], w.name, g.id) == {} && TargetsOf(map[], w.name, g.id) == {};
    assert t in targets;
    AppliedSomeAt(map[], w.name, g, targets, {}, {}, n);
  }

  lemma LaterPass(ps: Placements, w: Work, g: Group, dests: seq<Destination>, roll: nat, n: Name)
    requires w.resource && n in ps && n.work == w.name && n.group == g.id
    ensures var r := Step(ps, Whole(w, g, dests, roll));
      n in r && r[n] == Refreshed(ps[n], g.workloads, ps[n].target !in Allowed(dests, g))
  {
    assert n in Existing(ps, w.name, g.id);
  }

  /** For instance: a destination stops matching and matches again; the conditions follow it both
      ways, the label stays. */
  lemma LabelOutlasts(w: Work, g: Group, matching: seq<Destination>, other: seq<Destination>, roll: nat, t: string)
    requires w.resource && EligibleNames(matching, Resolve(g.selectors)) == [t] && t !in Allowed(other, g)
    ensures var events := [Whole(w, g, matching, roll), Whole(w, g, other, roll), Whole(w, g, matching, roll)];
      var n, ps := Name(w.name, t, g.id), After(map[], events);
      && n in ps && t in Allowed(matching, g)
      && ps[n].misplaced && ps[n].conditions.schedule == Condition(true, ScheduledToDestination, Fixed)
  {
    var n := Name(w.name, t, g.id);
    var on, off := Whole(w, g, matching, roll), Whole(w, g, other, roll);
    var s1 := Step(map[], on);
    var s2 := Step(s1, off);
    FirstPass(w, g, matching, roll, t);
    LaterPass(s1, w, g, other, roll, n);
    LaterPass(s2, w, g, matching, roll, n);
    assert [on, off, on][1..] == [off, on] && [off, on][1..] == [on] && [on][1..] == [];
    assert After(map[], [on, off, on]) == After(s1, [off, on]) == After(s2, [on]) == After(Step(s2, on), []);
  }

  /** A placed resource group is updated in place and reported misplaced exactly when its target is
      no longer eligible; an unplaced one goes to one eligible destination if there is any. */
  lemma ResourceGroup(ps: Placements, dests: seq<Destination>, w: Work, g: Group, roll: nat)
    requires w.resource && GroupPass(ps, dests, w, g, roll).Done?
    ensures var r := GroupPass(ps, dests, w, g, roll);
      var existing := Existing(ps, w.name, g.id);
      && (existing != {} ==>
            && r.placements.Keys == ps.Keys
            && (r.status.OffTarget? <==> exists n :: n in existing && ps[n].target !in Allowed(dests, g))
            && forall n :: n in existing ==> r.placements[n].workloads == g.workloads)
      && (existing == {} ==>
            && (r.status.NoTarget? <==> Allowed(dests, g) == {})
            && !r.status.OffTarget?
            && (Allowed(dests, g) != {} ==> exists t :: t in Allowed(dests, g) && r.placements.Keys == ps.Keys + {Name(w.name, t, g.id)}))
  {
    if Existing(ps, w.name, g.id) == {} {
      var chosen := Chosen(EligibleNames(dests, Resolve(g.selectors)), true, roll);
      ChosenIsAllowed(dests, g, true, roll);
      FreshTargets(ps, w, g, chosen);
    }
  }

  lemma FreshTargets(ps: Placements, w: Work, g: Group, chosen: set<string>)
    requires Existing(ps, w.name, g.id) == {}
    ensures var targets := TargetMap(ps, w.name, g.id, chosen);
      && targets.Keys == chosen
      && (forall t :: t in targets ==> !targets[t] && !Refuses(ps, Name(w.name, t, g.id)))
      && forall t :: chosen == {t} ==> ApplyAll(ps, w.name, g, targets).Keys == ps.Keys + {Name(w.name, t, g.id)}
  {
    var targets := TargetMap(ps, w.name, g.id, chosen);
    assert TargetsOf(ps, w.name, g.id) == {};
    assert forall t :: Name(w.name, t, g.id) !in Existing(ps, w.name, g.id);
    forall t | chosen == {t}
      ensures ApplyAll(ps, w.name, g, targets).Keys == ps.Keys + {Name(w.name, t, g.id)}
    {
      assert t in chosen;
      forall n: Name
        ensures n in ApplyAll(ps, w.name, g, targets) <==> n in ps.Keys + {Name(w.name, t, g.id)}
      {
        AppliedAt(ps, w.name, g, targets, n);
      }
    }
  }
}
