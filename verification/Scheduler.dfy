/** The scheduler (internal/controller/scheduler.go): which WorkPlacements a pass over one Work
    creates, updates, labels as misplaced and deletes. */
module Scheduler {
  import opened Writers
  import opened Selectors
  import opened Conditions

  datatype Destination = Destination(name: string, labels: Labels, strict: bool, deleting: bool)

  datatype Group = Group(id: string, workloads: seq<Workload>, selectors: seq<Scheduling>)

  /** `resource`: the Work belongs to a resource request; otherwise it is a dependency. */
  datatype Work = Work(name: string, resource: bool, groups: seq<Group>)

  /** The object name "<work>.<target>-<short group ID>", which also fixes the labels the scheduler
      queries.  Names are taken not to collide. */
  datatype Name = Name(work: string, target: string, group: string)

  /** `target` is the spec's destination name, which the scheduler goes by; the name only repeats it. */
  datatype Placement = Placement(
    target: string,
    workloads: seq<Workload>,
    misplaced: bool,
    repo: bool,
    deleting: bool,
    conditions: PlacementConditions)

  type Placements = map<Name, Placement>

  // ------------------------------------------------------------ eligibility

  predicate Matches(selectors: Labels, labels: Labels) {
    forall k :: k in selectors ==> k in labels && labels[k] == selectors[k]
  }

  /** Without selectors every destination qualifies, except strict ones that carry labels. */
  predicate Eligible(d: Destination, selectors: Labels) {
    && !d.deleting
    && (if |selectors| > 0 then Matches(selectors, d.labels) else !(d.strict && |d.labels| > 0))
  }

  function EligibleNames(dests: seq<Destination>, selectors: Labels): seq<string> {
    if dests == [] then []
    else
      var rest, d := EligibleNames(dests[..|dests| - 1], selectors), dests[|dests| - 1];
      if Eligible(d, selectors) then rest + [d.name] else rest
  }

  /** The destinations a group may go to. */
  function Allowed(dests: seq<Destination>, g: Group): set<string> {
    set d | d in EligibleNames(dests, Resolve(g.selectors))
  }

  lemma {:induction false} EligibleNamesMeaning(dests: seq<Destination>, selectors: Labels, name: string)
    ensures name in EligibleNames(dests, selectors) <==> exists i :: 0 <= i < |dests| && Takes(dests[i], selectors, name)
  {
    if dests != [] {
      var front := dests[..|dests| - 1];
      EligibleNamesMeaning(front, selectors, name);
      EligibleIs(dests[|dests| - 1], selectors);
      assert forall i :: 0 <= i < |front| ==> front[i] == dests[i];
    }
  }

  lemma EligibleIs(d: Destination, selectors: Labels)
    ensures Eligible(d, selectors) <==> Takes(d, selectors, d.name)
  {
    assert Matches(selectors, d.labels) <==> selectors.Items <= d.labels.Items by {
      forall k | k in selectors && selectors.Items <= d.labels.Items
        ensures k in d.labels && d.labels[k] == selectors[k]
      {
        assert (k, selectors[k]) in selectors.Items;
      }
    }
    assert |selectors| > 0 <==> selectors != map[];
    assert |d.labels| > 0 <==> d.labels != map[];
  }

  /** A destination of this name that is not being deleted and has all the labels asked for; if none is
      asked for, one that has no labels or is not strict about them. */
  predicate Takes(d: Destination, selectors: Labels, name: string) {
    && d.name == name && !d.deleting
    && selectors.Items <= d.labels.Items
    && (selectors == map[] && d.strict ==> d.labels == map[])
  }

  // --------------------------------------------------------- one group's pass

  datatype GroupStatus = OnTarget | NoTarget | OffTarget   // scheduled, unscheduled, misplaced

  datatype GroupResult = Failed | Done(placements: Placements, status: GroupStatus)

  function Existing(ps: Placements, work: string, group: string): set<Name> {
    set n | n in ps && n.work == work && n.group == group
  }

  function TargetsOf(ps: Placements, work: string, group: string): set<string> {
    set n | n in Existing(ps, work, group) :: ps[n].target
  }

  /** A random destination for a resource request, all of them for a dependency. */
  function Chosen(eligible: seq<string>, resource: bool, roll: nat): set<string> {
    if eligible == [] then {}
    else if resource then {eligible[roll % |eligible|]}
    else set d | d in eligible
  }

  /** The mutation of CreateOrUpdate, followed by the status update. */
  function Applied(ps: Placements, n: Name, workloads: seq<Workload>, misplaced: bool): Placement {
    var conditions := if n in ps then ps[n].conditions else NoConditions;
    Placement(n.target, workloads, misplaced, true, n in ps && ps[n].deleting, SetScheduled(conditions, misplaced))
  }

  /** updateWorkPlacement: the misplaced label is only ever added here. */
  function Refreshed(p: Placement, workloads: seq<Workload>, misplaced: bool): Placement {
    p.(workloads := workloads, misplaced := p.misplaced || misplaced, conditions := SetScheduled(p.conditions, misplaced))
  }

  /** The API server refuses to put a finalizer back on an object that is being deleted. */
  predicate Refuses(ps: Placements, n: Name) {
    n in ps && ps[n].deleting && !ps[n].repo
  }

  /** One target per key, true for a misplaced one. */
  function TargetMap(ps: Placements, work: string, group: string, chosen: set<string>): map<string, bool> {
    map t | t in chosen + TargetsOf(ps, work, group) :: t !in chosen
  }

  function ApplyAll(ps: Placements, work: string, g: Group, targets: map<string, bool>): Placements {
    ps + map t | t in targets :: Name(work, t, g.id) := Applied(ps, Name(work, t, g.id), g.workloads, targets[t])
  }

  /** What `ApplyAll` leaves behind, name by name. */
  lemma AppliedAt(ps: Placements, work: string, g: Group, targets: map<string, bool>, n: Name)
    ensures var r := ApplyAll(ps, work, g, targets);
      var hit := n.work == work && n.group == g.id && n.target in targets;
      && (n in r <==> n in ps || hit)
      && (n in r ==> r[n] == if hit then Applied(ps, n, g.workloads, targets[n.target]) else ps[n])
  {
    if n.work == work && n.group == g.id && n.target in targets {
      assert Name(work, n.target, g.id) == n;
    }
  }

  function UpdateAll(ps: Placements, names: set<Name>, g: Group, allowed: set<string>): Placements {
    map n | n in ps :: if n in names then Refreshed(ps[n], g.workloads, ps[n].target !in allowed) else ps[n]
  }

  /** One placement per target, true for a misplaced one. */
  function PlacePass(ps: Placements, w: Work, g: Group, targets: map<string, bool>): GroupResult {
    if targets == map[] then Done(ps, NoTarget)
    else if exists t :: t in targets && Refuses(ps, Name(w.name, t, g.id)) then Failed
    else Done(ApplyAll(ps, w.name, g, targets), if exists t :: t in targets && targets[t] then OffTarget else OnTarget)
  }

  /** reconcileWorkloadGroup. */
  function GroupPass(ps: Placements, dests: seq<Destination>, w: Work, g: Group, roll: nat): GroupResult {
    var existing := Existing(ps, w.name, g.id);
    var allowed := Allowed(dests, g);
    if w.resource && existing != {} then
      Done(UpdateAll(ps, existing, g, allowed), if exists n :: n in existing && ps[n].target !in allowed then OffTarget else OnTarget)
    else
      var chosen := Chosen(EligibleNames(dests, Resolve(g.selectors)), w.resource, roll);
      PlacePass(ps, w, g, TargetMap(ps, w.name, g.id, chosen))
  }

  /** Every placement is for the destination its name says. */
  ghost predicate Named(ps: Placements) {
    forall n :: n in ps ==> ps[n].target == n.target
  }

  lemma GroupPassKeepsNamed(ps: Placements, dests: seq<Destination>, w: Work, g: Group, roll: nat)
    requires Named(ps) && GroupPass(ps, dests, w, g, roll).Done?
    ensures Named(GroupPass(ps, dests, w, g, roll).placements)
  {
  }

  /** Nothing but placements of this Work and group differs. */
  ghost predicate GroupFramed(a: Placements, b: Placements, work: string, group: string) {
    forall n: Name :: !(n.work == work && n.group == group) ==> (n in a <==> n in b) && (n in a ==> a[n] == b[n])
  }

  lemma GroupPassIsFramed(ps: Placements, dests: seq<Destination>, w: Work, g: Group, roll: nat)
    requires GroupPass(ps, dests, w, g, roll).Done?
    ensures GroupFramed(ps, GroupPass(ps, dests, w, g, roll).placements, w.name, g.id)
  {
  }

  // ------------------------------------------------------- the whole pass

  datatype PassResult = Aborted | Passed(placements: Placements, unscheduled: seq<string>, misplaced: seq<string>)

  /** The groups of the Work, in list order. */
  function GroupsPass(ps: Placements, groups: seq<Group>, pass: (Placements, Group) -> GroupResult): PassResult {
    if groups == [] then Passed(ps, [], [])
    else
      var g := groups[|groups| - 1];
      match GroupsPass(ps, groups[..|groups| - 1], pass)
      case Aborted => Aborted
      case Passed(ps1, us, ms) =>
        match pass(ps1, g)
        case Failed => Aborted
        case Done(ps2, status) =>
          Passed(ps2, if status.NoTarget? then us + [g.id] else us, if status.OffTarget? then ms + [g.id] else ms)
  }

  /** One group's pass, with the random number drawn for it. */
  function PassOf(dests: seq<Destination>, w: Work, roll: string -> nat): (Placements, Group) -> GroupResult {
    (ps: Placements, g: Group) => GroupPass(ps, dests, w, g, roll(g.id))
  }

  predicate HasGroup(w: Work, id: string) {
    exists i :: 0 <= i < |w.groups| && w.groups[i].id == id
  }

  /** cleanupDanglingWorkplacements: placements of this Work without a current group are deleted. */
  function DropDangling(ps: Placements, w: Work): Placements {
    map n | n in ps :: if n.work == w.name && !HasGroup(w, n.group) then ps[n].(deleting := true) else ps[n]
  }

  /** ReconcileWork. */
  function WorkPass(ps: Placements, dests: seq<Destination>, w: Work, roll: string -> nat): PassResult {
    match GroupsPass(ps, w.groups, PassOf(dests, w, roll))
    case Aborted => Aborted
    case Passed(ps1, us, ms) => Passed(DropDangling(ps1, w), us, ms)
  }

  predicate DistinctGroups(groups: seq<Group>) {
    forall i, j :: 0 <= i < j < |groups| ==> groups[i].id != groups[j].id
  }

  // ----------------------------------------------------- passes cut short

  /** updateWorkPlacement, whose status update may fail after the update itself went through. */
  function UpdatedPart(p: Placement, g: Group, off: bool, muted: bool): Placement {
    if muted then p.(workloads := g.workloads, misplaced := p.misplaced || off) else Refreshed(p, g.workloads, off)
  }

  function UpdateSome(ps: Placements, names: set<Name>, g: Group, allowed: set<string>, refused: set<Name>, mute: set<Name>): Placements {
    map n | n in ps ::
      if n in names && n !in refused then UpdatedPart(ps[n], g, ps[n].target !in allowed, n in mute) else ps[n]
  }

  function AppliedPart(ps: Placements, n: Name, workloads: seq<Workload>, misplaced: bool, muted: bool): Placement {
    var p := Applied(ps, n, workloads, misplaced);
    if muted then p.(conditions := if n in ps then ps[n].conditions else NoConditions) else p
  }

  function ApplySome(ps: Placements, work: string, g: Group, targets: map<string, bool>, refused: set<Name>, mute: set<Name>): Placements {
    ps + map t | t in targets && Name(work, t, g.id) !in refused && !Refuses(ps, Name(work, t, g.id)) ::
      Name(work, t, g.id) := AppliedPart(ps, Name(work, t, g.id), g.workloads, targets[t], Name(work, t, g.id) in mute)
  }

  /** What a group's pass leaves when creating or updating the `refused` placements fails, or is not
      come to, and the status updates of the `mute` ones do. */
  function CutPass(ps: Placements, dests: seq<Destination>, w: Work, g: Group, roll: nat, refused: set<Name>, mute: set<Name>): Placements {
    var existing := Existing(ps, w.name, g.id);
    if w.resource && existing != {} then UpdateSome(ps, existing, g, Allowed(dests, g), refused, mute)
    else
      var chosen := Chosen(EligibleNames(dests, Resolve(g.selectors)), w.resource, roll);
      ApplySome(ps, w.name, g, TargetMap(ps, w.name, g.id, chosen), refused, mute)
  }

  /** A part of a Work's pass: over one group, or the deletion of some dangling placements. */
  datatype Cut =
    | GroupCut(g: Group, roll: nat, refused: set<Name>, mute: set<Name>)
    | DropCut(names: set<Name>)

  function Dangling(ps: Placements, w: Work): set<Name> {
    set n | n in ps && n.work == w.name && !HasGroup(w, n.group)
  }

  function Dropped(ps: Placements, names: set<Name>): Placements {
    map n | n in ps :: if n in names then ps[n].(deleting := true) else ps[n]
  }

  function CutStep(ps: Placements, dests: seq<Destination>, w: Work, cut: Cut): Placements {
    match cut
    case GroupCut(g, roll, refused, mute) => CutPass(ps, dests, w, g, roll, refused, mute)
    case DropCut(names) => Dropped(ps, names * Dangling(ps, w))
  }

  function CutAll(ps: Placements, dests: seq<Destination>, w: Work, cuts: seq<Cut>): Placements {
    if cuts == [] then ps else CutStep(CutAll(ps, dests, w, cuts[..|cuts| - 1]), dests, w, cuts[|cuts| - 1])
  }

  /** The cuts are of this Work's groups. */
  ghost predicate CutsOf(w: Work, cuts: seq<Cut>) {
    forall i :: 0 <= i < |cuts| && cuts[i].GroupCut? ==> cuts[i].g in w.groups
  }

  /** Two sets of placements that look the same by name are the same. */
  lemma SameByName(a: Placements, b: Placements)
    requires forall n: Name :: (n in a <==> n in b) && (n in a ==> a[n] == b[n])
    ensures a == b
  {
  }

  lemma AppliedSomeAt(ps: Placements, work: string, g: Group, targets: map<string, bool>, refused: set<Name>, mute: set<Name>, n: Name)
    ensures var r := ApplySome(ps, work, g, targets, refused, mute);
      var hit := n.work == work && n.group == g.id && n.target in targets && n !in refused && !Refuses(ps, n);
      && (n in r <==> n in ps || hit)
      && (n in r ==> r[n] == if hit then AppliedPart(ps, n, g.workloads, targets[n.target], n in mute) else ps[n])
  {
    if n.work == work && n.group == g.id && n.target in targets {
      assert Name(work, n.target, g.id) == n;
    }
  }

  lemma UpdateEvery(ps: Placements, names: set<Name>, g: Group, allowed: set<string>, refused: set<Name>, mute: set<Name>)
    requires names !! refused && names !! mute
    ensures UpdateSome(ps, names, g, allowed, refused, mute) == UpdateAll(ps, names, g, allowed)
  {
  }

  lemma ApplyEvery(ps: Placements, work: string, g: Group, targets: map<string, bool>)
    requires forall t :: t in targets ==> !Refuses(ps, Name(work, t, g.id))
    ensures ApplySome(ps, work, g, targets, {}, {}) == ApplyAll(ps, work, g, targets)
  {
    var a, b := ApplySome(ps, work, g, targets, {}, {}), ApplyAll(ps, work, g, targets);
    forall n: Name
      ensures (n in a <==> n in b) && (n in a ==> a[n] == b[n])
    {
      AppliedSomeAt(ps, work, g, targets, {}, {}, n);
      AppliedAt(ps, work, g, targets, n);
      assert n.work == work && n.group == g.id ==> n == Name(work, n.target, g.id);
    }
    SameByName(a, b);
  }

  /** A pass that is not cut short is the whole pass. */
  lemma UncutPass(ps: Placements, dests: seq<Destination>, w: Work, g: Group, roll: nat)
    requires GroupPass(ps, dests, w, g, roll).Done?
    ensures CutPass(ps, dests, w, g, roll, {}, {}) == GroupPass(ps, dests, w, g, roll).placements
  {
    var existing := Existing(ps, w.name, g.id);
    if w.resource && existing != {} {
      UpdateEvery(ps, existing, g, Allowed(dests, g), {}, {});
    } else {
      var chosen := Chosen(EligibleNames(dests, Resolve(g.selectors)), w.resource, roll);
      UncutApply(ps, w, g, TargetMap(ps, w.name, g.id, chosen));
    }
  }

  lemma UncutApply(ps: Placements, w: Work, g: Group, targets: map<string, bool>)
    requires forall t :: t in targets ==> !Refuses(ps, Name(w.name, t, g.id))
    ensures ApplySome(ps, w.name, g, targets, {}, {}) == if targets == map[] then ps else ApplyAll(ps, w.name, g, targets)
  {
    if targets == map[] {
      assert forall t :: t !in targets;
    } else {
      ApplyEvery(ps, w.name, g, targets);
    }
  }

  function Uncut(groups: seq<Group>, roll: string -> nat): seq<Cut> {
    seq(|groups|, i requires 0 <= i < |groups| => GroupCut(groups[i], roll(groups[i].id), {}, {}))
  }

  lemma {:induction false} UncutGroups(ps: Placements, dests: seq<Destination>, w: Work, groups: seq<Group>, roll: string -> nat)
    requires GroupsPass(ps, groups, PassOf(dests, w, roll)).Passed?
    ensures CutAll(ps, dests, w, Uncut(groups, roll)) == GroupsPass(ps, groups, PassOf(dests, w, roll)).placements
  {
    if groups != [] {
      var front, g := groups[..|groups| - 1], groups[|groups| - 1];
      var cuts := Uncut(groups, roll);
      assert cuts[..|cuts| - 1] == Uncut(front, roll);
      UncutGroups(ps, dests, w, front, roll);
      UncutPass(GroupsPass(ps, front, PassOf(dests, w, roll)).placements, dests, w, g, roll(g.id));
    }
  }

  /** The whole pass over a Work: all groups, then all dangling placements. */
  lemma UncutWorkPass(ps: Placements, dests: seq<Destination>, w: Work, roll: string -> nat) returns (cuts: seq<Cut>)
    requires WorkPass(ps, dests, w, roll).Passed?
    ensures CutsOf(w, cuts) && CutAll(ps, dests, w, cuts) == WorkPass(ps, dests, w, roll).placements
  {
    var mid := GroupsPass(ps, w.groups, PassOf(dests, w, roll)).placements;
    UncutGroups(ps, dests, w, w.groups, roll);
    cuts := Uncut(w.groups, roll) + [DropCut(Dangling(mid, w))];
    OneMoreCut(ps, dests, w, Uncut(w.groups, roll), DropCut(Dangling(mid, w)));
    DropEvery(mid, dests, w);
  }

  lemma OneMoreCut(ps: Placements, dests: seq<Destination>, w: Work, cuts: seq<Cut>, cut: Cut)
    ensures CutAll(ps, dests, w, cuts + [cut]) == CutStep(CutAll(ps, dests, w, cuts), dests, w, cut)
  {
    assert (cuts + [cut])[..|cuts|] == cuts;
  }

  lemma DropEvery(ps: Placements, dests: seq<Destination>, w: Work)
    ensures CutStep(ps, dests, w, DropCut(Dangling(ps, w))) == DropDangling(ps, w)
  {
    assert Dangling(ps, w) * Dangling(ps, w) == Dangling(ps, w);
    assert Dropped(ps, Dangling(ps, w)) == DropDangling(ps, w);
  }

  lemma CutIsFramed(ps: Placements, dests: seq<Destination>, w: Work, g: Group, roll: nat, refused: set<Name>, mute: set<Name>)
    ensures GroupFramed(ps, CutPass(ps, dests, w, g, roll, refused, mute), w.name, g.id)
  {
  }

  lemma CutKeepsNamed(ps: Placements, dests: seq<Destination>, w: Work, cut: Cut)
    requires Named(ps)
    ensures Named(CutStep(ps, dests, w, cut))
  {
  }

  lemma CutKeepsAll(ps: Placements, dests: seq<Destination>, w: Work, cut: Cut, n: Name)
    requires n in ps
    ensures n in CutStep(ps, dests, w, cut)
  {
  }
}
