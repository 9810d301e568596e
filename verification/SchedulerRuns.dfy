/** A scheduling pass is a run of the machine in `System`, so what holds in all of its runs holds
    with the scheduler at work. */
module SchedulerRuns {
  import Store = Placement
  import System
  import S = Scheduler
  import SchedulerController
  import Selectors

  type Naming = S.Name -> string

  /** Object names do not collide and tell the Work. */
  ghost predicate Fits(c: Store.Config, naming: Naming) {
    && (forall m, n :: naming(m) == naming(n) ==> m == n)
    && (forall n :: c.workOf(naming(n)) == n.work)
  }

  predicate SameObject(p: S.Placement, q: System.WorkPlacement) {
    q.ws == p.workloads && q.repo == p.repo && q.deleting == p.deleting
  }

  /** The machine holds the scheduler's placements, as far as both know them. */
  ghost predicate Shows(naming: Naming, ps: S.Placements, objects: map<string, System.WorkPlacement>) {
    forall n: S.Name :: (n in ps <==> naming(n) in objects) && (n in ps ==> SameObject(ps[n], objects[naming(n)]))
  }

  /** The run touches nothing but WorkPlacement objects. */
  ghost predicate Leads(c: Store.Config, s: System.State, es: seq<System.Event>, naming: Naming, ps: S.Placements) {
    && System.Legal(c, s, es)
    && var t := System.After(c, s, es);
    t == s.(placements := t.placements) && Shows(naming, ps, t.placements)
  }

  ghost predicate OwnGroup(c: Store.Config, naming: Naming, w: S.Work, g: S.Group) {
    forall n: S.Name :: n.work == w.name && n.group == g.id ==> Store.OwnWorkloads(c, naming(n), g.workloads)
  }

  // ------------------------------------------------------------ single steps

  lemma ApplyStep(c: Store.Config, naming: Naming, s: System.State, ps: S.Placements, w: S.Work, g: S.Group, n: S.Name, misplaced: bool, muted: bool)
    requires Fits(c, naming) && Shows(naming, ps, s.placements) && w.name in s.passes
    requires n.work == w.name && n.group == g.id && OwnGroup(c, naming, w, g) && !S.Refuses(ps, n)
    ensures var e := System.ApplyPlacement(naming(n), g.workloads);
      var t := System.Step(c, s, e);
      && System.Enabled(c, s, e) && t == s.(placements := t.placements)
      && Shows(naming, ps[n := S.AppliedPart(ps, n, g.workloads, misplaced, muted)], t.placements)
  {
  }

  lemma UpdateStep(c: Store.Config, naming: Naming, s: System.State, ps: S.Placements, w: S.Work, g: S.Group, n: S.Name, misplaced: bool, muted: bool)
    requires Fits(c, naming) && Shows(naming, ps, s.placements) && w.name in s.passes
    requires n in ps && n.work == w.name && n.group == g.id && OwnGroup(c, naming, w, g)
    ensures var e := System.UpdatePlacement(naming(n), g.workloads);
      var t := System.Step(c, s, e);
      && System.Enabled(c, s, e) && t == s.(placements := t.placements)
      && Shows(naming, ps[n := S.UpdatedPart(ps[n], g, misplaced, muted)], t.placements)
  {
  }

  lemma MarkStep(c: Store.Config, naming: Naming, s: System.State, ps: S.Placements, w: S.Work, n: S.Name)
    requires Fits(c, naming) && Shows(naming, ps, s.placements) && w.name in s.passes && n in ps && n.work == w.name
    ensures var e := System.MarkDangling(naming(n));
      var t := System.Step(c, s, e);
      && System.Enabled(c, s, e) && t == s.(placements := t.placements)
      && Shows(naming, ps[n := ps[n].(deleting := true)], t.placements)
  {
  }

  /** A first step and a run from there. */
  lemma Prepend(c: Store.Config, s: System.State, e: System.Event, es: seq<System.Event>, naming: Naming, ps: S.Placements)
    requires System.Enabled(c, s, e)
    requires var t := System.Step(c, s, e); t == s.(placements := t.placements) && Leads(c, t, es, naming, ps)
    ensures Leads(c, s, [e] + es, naming, ps)
  {
    assert ([e] + es)[1..] == es;
  }

  lemma NoRun(c: Store.Config, s: System.State, naming: Naming, ps: S.Placements)
    requires Shows(naming, ps, s.placements)
    ensures Leads(c, s, [], naming, ps)
  {
  }

  /** The step is one of the pass's, and the machine shows `ps` after it. */
  ghost predicate Shown(c: Store.Config, s: System.State, e: System.Event, naming: Naming, ps: S.Placements) {
    && System.Enabled(c, s, e)
    && var t := System.Step(c, s, e);
    t == s.(placements := t.placements) && Shows(naming, ps, t.placements)
  }

  // ------------------------------------------------------------- the loops

  /** Wherever the loop is, `event(n)` takes the machine from the placements with `done` dealt with
      to those with `n` dealt with as well. */
  ghost predicate Stepwise(c: Store.Config, naming: Naming, w: string, names: set<S.Name>, view: set<S.Name> -> S.Placements, event: S.Name -> System.Event) {
    forall s: System.State, done, n :: w in s.passes && n in names && n !in done && Shows(naming, view(done), s.placements) ==>
      Shown(c, s, event(n), naming, view(done + {n}))
  }

  /** A loop over a set of placements, in any order, is a run. */
  lemma {:induction false} LoopRun(c: Store.Config, naming: Naming, s: System.State, w: string, names: set<S.Name>,
                                   view: set<S.Name> -> S.Placements, event: S.Name -> System.Event, done: set<S.Name>, todo: set<S.Name>)
    returns (es: seq<System.Event>)
    requires Stepwise(c, naming, w, names, view, event) && w in s.passes && todo <= names && done !! todo
    requires Shows(naming, view(done), s.placements)
    ensures Leads(c, s, es, naming, view(done + todo))
    decreases |todo|
  {
    if todo == {} {
      es := [];
      assert done + todo == done;
      NoRun(c, s, naming, view(done));
    } else {
      var n :| n in todo;
      assert Shown(c, s, event(n), naming, view(done + {n}));
      var rest := LoopRun(c, naming, System.Step(c, s, event(n)), w, names, view, event, done + {n}, todo - {n});
      assert done + {n} + (todo - {n}) == done + todo;
      Prepend(c, s, event(n), rest, naming, view(done + todo));
      es := [event(n)] + rest;
    }
  }

  /** Refreshing the placements a group has, as far as the updates go through. */
  lemma UpdateRun(c: Store.Config, naming: Naming, s: System.State, ps: S.Placements, w: S.Work, g: S.Group, allowed: set<string>,
                  refused: set<S.Name>, mute: set<S.Name>) returns (es: seq<System.Event>)
    requires Fits(c, naming) && OwnGroup(c, naming, w, g) && w.name in s.passes && Shows(naming, ps, s.placements)
    ensures Leads(c, s, es, naming, S.UpdateSome(ps, S.Existing(ps, w.name, g.id), g, allowed, refused, mute))
  {
    var names := S.Existing(ps, w.name, g.id) - refused;
    var view := (done: set<S.Name>) => S.UpdateSome(ps, done, g, allowed, {}, mute);
    var event := (n: S.Name) => System.UpdatePlacement(naming(n), g.workloads);
    forall s: System.State, done, n | w.name in s.passes && n in names && n !in done && Shows(naming, view(done), s.placements)
      ensures Shown(c, s, event(n), naming, view(done + {n}))
    {
      SchedulerController.UpdateOneMore(ps, done, g, allowed, {}, mute, n);
      UpdateStep(c, naming, s, S.UpdateSome(ps, done, g, allowed, {}, mute), w, g, n, ps[n].target !in allowed, n in mute);
    }
    SchedulerController.UpdateNone(ps, g, allowed, {}, mute);
    es := LoopRun(c, naming, s, w.name, names, view, event, {}, names);
    assert {} + names == names;
    assert view(names) == S.UpdateSome(ps, S.Existing(ps, w.name, g.id), g, allowed, refused, mute);
  }

  /** The placements with the targets of `done` dealt with. */
  function AppliedSoFar(ps: S.Placements, w: S.Work, g: S.Group, targets: map<string, bool>, mute: set<S.Name>, done: set<S.Name>): S.Placements {
    ps + map n | n in done && n.target in targets :: S.AppliedPart(ps, n, g.workloads, targets[n.target], n in mute)
  }

  lemma AppliedMore(ps: S.Placements, w: S.Work, g: S.Group, targets: map<string, bool>, mute: set<S.Name>, done: set<S.Name>, n: S.Name)
    requires n !in done && n.target in targets
    ensures var part := AppliedSoFar(ps, w, g, targets, mute, done);
      && (n in part <==> n in ps) && (n in ps ==> part[n] == ps[n])
      && AppliedSoFar(ps, w, g, targets, mute, done + {n}) == part[n := S.AppliedPart(part, n, g.workloads, targets[n.target], n in mute)]
  {
    var part := AppliedSoFar(ps, w, g, targets, mute, done);
    assert S.AppliedPart(part, n, g.workloads, targets[n.target], n in mute) == S.AppliedPart(ps, n, g.workloads, targets[n.target], n in mute);
  }

  lemma AppliedInTheEnd(ps: S.Placements, w: S.Work, g: S.Group, targets: map<string, bool>, refused: set<S.Name>, mute: set<S.Name>, names: set<S.Name>)
    requires forall n: S.Name :: n in names <==>
      n.work == w.name && n.group == g.id && n.target in targets && n !in refused && !S.Refuses(ps, n)
    ensures AppliedSoFar(ps, w, g, targets, mute, names) == S.ApplySome(ps, w.name, g, targets, refused, mute)
  {
    var a, b := AppliedSoFar(ps, w, g, targets, mute, names), S.ApplySome(ps, w.name, g, targets, refused, mute);
    forall n: S.Name
      ensures (n in a <==> n in b) && (n in a ==> a[n] == b[n])
    {
      S.AppliedSomeAt(ps, w.name, g, targets, refused, mute, n);
    }
    S.SameByName(a, b);
  }

  /** The names of the targets that are neither refused nor left out. */
  function Reached(ps: S.Placements, w: S.Work, g: S.Group, targets: map<string, bool>, refused: set<S.Name>): set<S.Name> {
    set t | t in targets && S.Name(w.name, t, g.id) !in refused && !S.Refuses(ps, S.Name(w.name, t, g.id)) :: S.Name(w.name, t, g.id)
  }

  lemma ReachedIff(ps: S.Placements, w: S.Work, g: S.Group, targets: map<string, bool>, refused: set<S.Name>)
    ensures forall n: S.Name :: n in Reached(ps, w, g, targets, refused) <==>
      n.work == w.name && n.group == g.id && n.target in targets && n !in refused && !S.Refuses(ps, n)
  {
    forall n: S.Name
      ensures n in Reached(ps, w, g, targets, refused) <==>
        n.work == w.name && n.group == g.id && n.target in targets && n !in refused && !S.Refuses(ps, n)
    {
      assert n.work == w.name && n.group == g.id ==> n == S.Name(w.name, n.target, g.id);
    }
  }

  /** Creating or updating the placements of a group's targets, as far as the calls go through. */
  lemma ApplyRun(c: Store.Config, naming: Naming, s: System.State, ps: S.Placements, w: S.Work, g: S.Group,
                 targets: map<string, bool>, refused: set<S.Name>, mute: set<S.Name>) returns (es: seq<System.Event>)
    requires Fits(c, naming) && OwnGroup(c, naming, w, g) && w.name in s.passes && Shows(naming, ps, s.placements)
    ensures Leads(c, s, es, naming, S.ApplySome(ps, w.name, g, targets, refused, mute))
  {
    var names := Reached(ps, w, g, targets, refused);
    ReachedIff(ps, w, g, targets, refused);
    var view := (done: set<S.Name>) => AppliedSoFar(ps, w, g, targets, mute, done);
    var event := (n: S.Name) => System.ApplyPlacement(naming(n), g.workloads);
    forall s: System.State, done, n | w.name in s.passes && n in names && n !in done && Shows(naming, view(done), s.placements)
      ensures Shown(c, s, event(n), naming, view(done + {n}))
    {
      AppliedMore(ps, w, g, targets, mute, done, n);
      ApplyStep(c, naming, s, AppliedSoFar(ps, w, g, targets, mute, done), w, g, n, targets[n.target], n in mute);
    }
    assert view({}) == ps;
    es := LoopRun(c, naming, s, w.name, names, view, event, {}, names);
    assert {} + names == names;
    AppliedInTheEnd(ps, w, g, targets, refused, mute, names);
  }

  /** Deleting some placements. */
  lemma DropRun(c: Store.Config, naming: Naming, s: System.State, ps: S.Placements, w: S.Work, names: set<S.Name>)
    returns (es: seq<System.Event>)
    requires Fits(c, naming) && w.name in s.passes && names <= ps.Keys && Shows(naming, ps, s.placements)
    requires forall n :: n in names ==> n.work == w.name
    ensures Leads(c, s, es, naming, S.Dropped(ps, names))
  {
    var view := (done: set<S.Name>) => S.Dropped(ps, done);
    var event := (n: S.Name) => System.MarkDangling(naming(n));
    forall s: System.State, done, n | w.name in s.passes && n in names && n !in done && Shows(naming, view(done), s.placements)
      ensures Shown(c, s, event(n), naming, view(done + {n}))
    {
      SchedulerController.DropOneMore(ps, done, n);
      MarkStep(c, naming, s, S.Dropped(ps, done), w, n);
    }
    SchedulerController.DropNothing(ps);
    es := LoopRun(c, naming, s, w.name, names, view, event, {}, names);
    assert {} + names == names;
  }

  // -------------------------------------------------------------- the pass

  lemma CutRun(c: Store.Config, naming: Naming, s: System.State, ps: S.Placements, dests: seq<S.Destination>, w: S.Work, cut: S.Cut)
    returns (es: seq<System.Event>)
    requires Fits(c, naming) && w.name in s.passes && Shows(naming, ps, s.placements)
    requires cut.GroupCut? ==> OwnGroup(c, naming, w, cut.g)
    ensures Leads(c, s, es, naming, S.CutStep(ps, dests, w, cut))
  {
    match cut {
      case GroupCut(g, roll, refused, mute) =>
        if w.resource && S.Existing(ps, w.name, g.id) != {} {
          es := UpdateRun(c, naming, s, ps, w, g, S.Allowed(dests, g), refused, mute);
        } else {
          var chosen := S.Chosen(S.EligibleNames(dests, Selectors.Resolve(g.selectors)), w.resource, roll);
          es := ApplyRun(c, naming, s, ps, w, g, S.TargetMap(ps, w.name, g.id, chosen), refused, mute);
        }
      case DropCut(names) =>
        es := DropRun(c, naming, s, ps, w, names * S.Dangling(ps, w));
    }
  }

  lemma Chain(c: Store.Config, s: System.State, a: seq<System.Event>, b: seq<System.Event>, naming: Naming, mid: S.Placements, end: S.Placements)
    requires Leads(c, s, a, naming, mid) && Leads(c, System.After(c, s, a), b, naming, end)
    ensures Leads(c, s, a + b, naming, end)
  {
    System.AfterConcat(c, s, a, b);
  }

  lemma {:induction false} CutsRun(c: Store.Config, naming: Naming, s: System.State, ps: S.Placements, dests: seq<S.Destination>, w: S.Work,
                                   cuts: seq<S.Cut>) returns (es: seq<System.Event>)
    requires Fits(c, naming) && w.name in s.passes && Shows(naming, ps, s.placements)
    requires forall i :: 0 <= i < |cuts| && cuts[i].GroupCut? ==> OwnGroup(c, naming, w, cuts[i].g)
    ensures Leads(c, s, es, naming, S.CutAll(ps, dests, w, cuts))
    decreases |cuts|
  {
    if cuts == [] {
      es := [];
      NoRun(c, s, naming, ps);
    } else {
      var front, cut := cuts[..|cuts| - 1], cuts[|cuts| - 1];
      var mid := S.CutAll(ps, dests, w, front);
      var a := CutsRun(c, naming, s, ps, dests, w, front);
      var b := CutRun(c, naming, System.After(c, s, a), mid, dests, w, cut);
      Chain(c, s, a, b, naming, mid, S.CutStep(mid, dests, w, cut));
      es := a + b;
    }
  }

  /** Every scheduling pass over a Work that is not being deleted, however far it gets, is a legal run
      of the machine: it begins and ends a pass, and in between creates, updates and marks exactly the
      placements the scheduler does. */
  lemma PassIsARun(c: Store.Config, naming: Naming, s: System.State, ps: S.Placements, dests: seq<S.Destination>, w: S.Work, cuts: seq<S.Cut>)
    returns (es: seq<System.Event>)
    requires Fits(c, naming) && Shows(naming, ps, s.placements) && S.CutsOf(w, cuts)
    requires w.name in s.works && s.works[w.name].finalizer && !s.works[w.name].deleting && w.name !in s.passes
    requires forall g :: g in w.groups ==> OwnGroup(c, naming, w, g)
    ensures Leads(c, s, es, naming, S.CutAll(ps, dests, w, cuts))
  {
    var a := CutsRun(c, naming, System.Step(c, s, System.BeginPass(w.name)), ps, dests, w, cuts);
    es := Bracket(c, s, w.name, a, naming, S.CutAll(ps, dests, w, cuts));
  }

  /** In particular every complete pass is. */
  lemma CompletePassIsARun(c: Store.Config, naming: Naming, s: System.State, ps: S.Placements, dests: seq<S.Destination>, w: S.Work, roll: string -> nat)
    returns (es: seq<System.Event>)
    requires Fits(c, naming) && Shows(naming, ps, s.placements) && S.WorkPass(ps, dests, w, roll).Passed?
    requires w.name in s.works && s.works[w.name].finalizer && !s.works[w.name].deleting && w.name !in s.passes
    requires forall g :: g in w.groups ==> OwnGroup(c, naming, w, g)
    ensures Leads(c, s, es, naming, S.WorkPass(ps, dests, w, roll).placements)
  {
    var cuts := S.UncutWorkPass(ps, dests, w, roll);
    es := PassIsARun(c, naming, s, ps, dests, w, cuts);
  }

  /** Putting the pass's beginning and end around its steps. */
  lemma Bracket(c: Store.Config, s: System.State, w: string, es: seq<System.Event>, naming: Naming, ps: S.Placements)
    returns (all: seq<System.Event>)
    requires w in s.works && s.works[w].finalizer && !s.works[w].deleting && w !in s.passes
    requires Leads(c, System.Step(c, s, System.BeginPass(w)), es, naming, ps)
    ensures Leads(c, s, all, naming, ps)
  {
    var begin, end := System.BeginPass(w), System.EndPass(w);
    var s1 := System.Step(c, s, begin);
    var s2 := System.After(c, s1, es);
    assert [end][1..] == [];
    assert System.Legal(c, System.Step(c, s2, end), []);
    System.AfterConcat(c, s1, es, [end]);
    all := [begin] + (es + [end]);
    assert all[1..] == es + [end];
    assert System.After(c, s2, [end]) == System.Step(c, s2, end);
    assert s.passes + {w} - {w} == s.passes;
  }
}
