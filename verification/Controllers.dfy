/** The WorkPlacement controller's reconcile and the Work controller's deletion as the code performs
    them, each call proved to be a run of the machine in `System`. */
module Controllers {
  import opened Wrappers
  import opened Writers
  import opened Placement
  import opened System

  /** The system steps one WorkPlacement reconcile takes, with the store or the object update failing. */
  function PlacementTrace(c: Config, s: State, p: string, storeFails: bool, updateFails: bool): seq<Event> {
    if p !in s.placements || storeFails then []
    else
      var wp := s.placements[p];
      if wp.deleting then
        if wp.repo then
          if DeleteWorkloads(c, s.files, p).None? then []
          else [EraseFiles(p), if updateFails then DropThread(p) else DropRepoFinalizer(p)]
        else if wp.dotfile then [EraseState(p), if updateFails then DropThread(p) else DropStateFinalizer(p)]
        else []
      else if Write(c, s.files, p, wp.ws).None? then []
      else
        [BeginWrite(p), StoreWrite(p),
         if updateFails || (wp.repo && (wp.dotfile || c.mode(p).Nested?)) then DropThread(p) else AddPlacementFinalizers(p)]
  }

  /** Every such trace is a legal run, so what holds in all runs holds for the controller. */
  lemma TraceIsLegal(c: Config, s: State, p: string, storeFails: bool, updateFails: bool)
    requires p !in s.threads
    ensures Legal(c, s, PlacementTrace(c, s, p, storeFails, updateFails))
  {
    if p in s.placements && !storeFails {
      if !s.placements[p].deleting {
        WriteIsLegal(c, s, p, updateFails);
      } else if s.placements[p].repo {
        EraseFilesIsLegal(c, s, p, updateFails);
      } else if s.placements[p].dotfile {
        EraseStateIsLegal(c, s, p, updateFails);
      }
    }
  }

  lemma WriteIsLegal(c: Config, s: State, p: string, updateFails: bool)
    requires p in s.placements && p !in s.threads && !s.placements[p].deleting
    ensures Legal(c, s, PlacementTrace(c, s, p, false, updateFails))
  {
    var es := PlacementTrace(c, s, p, false, updateFails);
    if es != [] {
      ThreeSteps(c, s, es[0], es[1], es[2]);
    }
  }

  lemma ThreeSteps(c: Config, s: State, a: Event, b: Event, d: Event)
    ensures var s1 := Step(c, s, a);
      var s2 := Step(c, s1, b);
      && After(c, s, [a, b, d]) == Step(c, s2, d)
      && (Enabled(c, s, a) && Enabled(c, s1, b) && Enabled(c, s2, d) ==> Legal(c, s, [a, b, d]))
  {
    TwoSteps(c, Step(c, s, a), b, d);
    assert [a, b, d][1..] == [b, d];
  }

  lemma EraseFilesIsLegal(c: Config, s: State, p: string, updateFails: bool)
    requires p in s.placements && p !in s.threads && s.placements[p].deleting && s.placements[p].repo
    ensures Legal(c, s, PlacementTrace(c, s, p, false, updateFails))
  {
    TwoSteps(c, s, EraseFiles(p), if updateFails then DropThread(p) else DropRepoFinalizer(p));
  }

  lemma EraseStateIsLegal(c: Config, s: State, p: string, updateFails: bool)
    requires p in s.placements && p !in s.threads && s.placements[p].deleting && !s.placements[p].repo && s.placements[p].dotfile
    ensures Legal(c, s, PlacementTrace(c, s, p, false, updateFails))
  {
    TwoSteps(c, s, EraseState(p), if updateFails then DropThread(p) else DropStateFinalizer(p));
  }

  /** The placements cannot be listed, some refuse to be deleted, or the Work cannot be updated. */
  datatype DeleteFaults = DeleteFaults(list: bool, refused: set<string>, update: bool)

  class Cluster {
    const c: Config
    var works: map<string, Work>
    var placements: map<string, WorkPlacement>
    var passes: set<string>
    var threads: map<string, Thread>
    var files: Files

    constructor (c: Config, s: State)
      ensures this.c == c && Snapshot() == s
    {
      this.c := c;
      works, placements, passes, threads, files := s.works, s.placements, s.passes, s.threads, s.files;
    }

    function Snapshot(): State
      reads this
    {
      State(works, placements, passes, threads, files)
    }

    method ReconcileWorkPlacement(p: string, storeFails: bool, updateFails: bool)
      requires p !in threads
      modifies this
      ensures Snapshot() == After(c, old(Snapshot()), PlacementTrace(c, old(Snapshot()), p, storeFails, updateFails))
    {
      if p !in placements {
        return;
      }
      if placements[p].deleting {
        DeleteWorkPlacement(p, storeFails, updateFails);
      } else {
        WriteToStateStore(p, storeFails, updateFails);
      }
    }

    method WriteToStateStore(p: string, storeFails: bool, updateFails: bool)
      requires p !in threads && p in placements && !placements[p].deleting
      modifies this
      ensures Snapshot() == After(c, old(Snapshot()), PlacementTrace(c, old(Snapshot()), p, storeFails, updateFails))
    {
      ghost var s := Snapshot();
      var wp := placements[p];
      var dir, creates, deletes := c.dir(p), wp.ws, [];
      if c.mode(p).Flat? {
        var stateFile := ReadState(c, files, p);
        if stateFile.None? {
          return;
        }
        deletes := CleanupWorkloads(stateFile.value, wp.ws);
        dir, creates := "", [StateWorkload(c, p, wp.ws)] + wp.ws;
      }
      if storeFails {
        return;
      }
      files := UpdateFiles(files, c.base(p), dir, creates, deletes);
      WriteTrace(c, s, p, updateFails);
      if updateFails {
        return;
      }
      if !wp.repo || (c.mode(p).Flat? && !wp.dotfile) {
        placements := placements[p := wp.(repo := true, dotfile := wp.dotfile || c.mode(p).Flat?)];
      }
    }

    method DeleteWorkPlacement(p: string, storeFails: bool, updateFails: bool)
      requires p !in threads && p in placements && placements[p].deleting
      modifies this
      ensures Snapshot() == After(c, old(Snapshot()), PlacementTrace(c, old(Snapshot()), p, storeFails, updateFails))
    {
      ghost var s := Snapshot();
      var wp := placements[p];
      if storeFails {
        return;
      }
      if wp.repo {
        EraseFilesTrace(c, s, p, updateFails);
        var workloadsToDelete := [];
        if c.mode(p).Flat? {
          if c.stateFile(p) !in files || c.unmarshal(files[c.stateFile(p)]).None? {
            return;
          }
          workloadsToDelete := c.unmarshal(files[c.stateFile(p)]).value;
        }
        files := UpdateFiles(files, c.base(p), if c.mode(p).Nested? then c.dir(p) + "/" else "", [], workloadsToDelete);
        if !updateFails {
          RemoveFinalizers(p, wp.(repo := false));
        }
        return;
      }
      EraseStateTrace(c, s, p, updateFails);
      if wp.dotfile {
        files := UpdateFiles(files, c.base(p), "", [], [c.statePath(p)]);
        if !updateFails {
          RemoveFinalizers(p, wp.(dotfile := false));
        }
      }
    }

    /** The update after which the API server drops an object without finalizers. */
    method RemoveFinalizers(p: string, wp: WorkPlacement)
      requires wp.deleting
      modifies this`placements
      ensures placements == if wp.repo || wp.dotfile then old(placements)[p := wp] else old(placements) - {p}
    {
      placements := if wp.repo || wp.dotfile then placements[p := wp] else placements - {p};
    }

    /** deleteWork: ask for the deletion of every placement of the Work, until one is refused; with
        none left, let the Work go. */
    method DeleteWork(w: string, f: DeleteFaults) returns (ghost reached: set<string>)
      requires w in works && works[w].deleting && w !in passes
      modifies this
      ensures Snapshot() == old(Snapshot()) || Snapshot() == Step(c, old(Snapshot()), Event.DeleteWork(w, reached))
      ensures !f.list && !f.update && f.refused == {} ==>
        reached == Children(c, old(Snapshot()), w) && Snapshot() == Step(c, old(Snapshot()), Event.DeleteWork(w, reached))
      ensures works == old(works) || Children(c, old(Snapshot()), w) == {}
    {
      reached := {};
      if f.list {
        return;
      }
      var remaining := Children(c, Snapshot(), w);
      if remaining == {} {
        WorkGoes(c, Snapshot(), w);
        if !f.update {
          works := works - {w};
        }
        return;
      }
      ghost var before := Snapshot();
      reached := DeletePlacements(remaining, f.refused);
      PlacementsGo(c, before, w, reached);
    }

    method DeletePlacements(remaining: set<string>, refused: set<string>) returns (ghost reached: set<string>)
      requires remaining <= placements.Keys
      modifies this`placements
      ensures Snapshot() == Marked(old(Snapshot()), reached)
      ensures reached <= remaining && (remaining !! refused ==> reached == remaining)
    {
      ghost var before := Snapshot();
      var todo := remaining;
      reached := {};
      MarkNone(before);
      while todo != {}
        invariant todo <= remaining && reached == remaining - todo
        invariant Snapshot() == Marked(before, reached)
        decreases todo
      {
        var p :| p in todo;
        if p in refused {
          return;
        }
        placements := placements[p := placements[p].(deleting := true)];
        MarkOneMore(before, reached, p);
        todo := todo - {p};
        reached := reached + {p};
      }
    }
  }

  lemma WorkGoes(c: Config, s: State, w: string)
    requires Children(c, s, w) == {}
    ensures forall reached :: Step(c, s, Event.DeleteWork(w, reached)) == s.(works := s.works - {w})
  {
  }

  lemma PlacementsGo(c: Config, s: State, w: string, reached: set<string>)
    requires reached <= Children(c, s, w) != {}
    ensures Step(c, s, Event.DeleteWork(w, reached)) == Marked(s, reached)
  {
    assert Children(c, s, w) * reached == reached;
  }

  lemma MarkNone(s: State)
    ensures Marked(s, {}) == s
  {
  }

  lemma MarkOneMore(s: State, ps: set<string>, p: string)
    requires p in s.placements && p !in ps
    ensures Marked(s, ps + {p}).placements == Marked(s, ps).placements[p := s.placements[p].(deleting := true)]
  {
  }

  /** A thread that comes and goes leaves the thread table as it was. */
  lemma ThreadComesAndGoes(threads: map<string, Thread>, p: string, a: Thread, b: Thread)
    requires p !in threads
    ensures threads[p := a][p := b] - {p} == threads
    ensures threads[p := a] - {p} == threads
  {
  }

  lemma WriteTrace(c: Config, s: State, p: string, updateFails: bool)
    requires p in s.placements && p !in s.threads && !s.placements[p].deleting
    requires Write(c, s.files, p, s.placements[p].ws).Some?
    ensures var wp := s.placements[p];
      After(c, s, PlacementTrace(c, s, p, false, updateFails)) ==
        s.(files := Write(c, s.files, p, wp.ws).value,
           placements := if updateFails || (wp.repo && (wp.dotfile || c.mode(p).Nested?)) then s.placements
                         else s.placements[p := wp.(repo := true, dotfile := wp.dotfile || c.mode(p).Flat?)])
  {
    var es := PlacementTrace(c, s, p, false, updateFails);
    var wp, files := s.placements[p], Write(c, s.files, p, s.placements[p].ws).value;
    ThreeSteps(c, s, es[0], es[1], es[2]);
    WritesWhatItRead(c, s, p);
    ThreadComesAndGoes(s.threads, p, Writing(wp.ws), Wrote);
    WriteEnds(c, s.(files := files), s.threads[p := Writing(wp.ws)][p := Wrote], p);
  }

  /** The last step: the thread ends, with or without the finalizers. */
  lemma WriteEnds(c: Config, s: State, threads: map<string, Thread>, p: string)
    requires p in s.placements && threads - {p} == s.threads
    ensures Step(c, s.(threads := threads), DropThread(p)) == s
    ensures var wp := s.placements[p];
      Step(c, s.(threads := threads), AddPlacementFinalizers(p)) ==
        s.(placements := s.placements[p := wp.(repo := true, dotfile := wp.dotfile || c.mode(p).Flat?)])
  {
  }

  /** The first two steps: the thread reads the placement, then writes. */
  lemma WritesWhatItRead(c: Config, s: State, p: string)
    requires p in s.placements && Write(c, s.files, p, s.placements[p].ws).Some?
    ensures var ws := s.placements[p].ws;
      Step(c, Step(c, s, BeginWrite(p)), StoreWrite(p)) ==
        s.(files := Write(c, s.files, p, ws).value, threads := s.threads[p := Writing(ws)][p := Wrote])
  {
  }

  lemma EraseFilesTrace(c: Config, s: State, p: string, updateFails: bool)
    requires p in s.placements && p !in s.threads && s.placements[p].deleting && s.placements[p].repo
    ensures var wp, t := s.placements[p], After(c, s, PlacementTrace(c, s, p, false, updateFails));
      t == match DeleteWorkloads(c, s.files, p)
        case None => s
        case Some(files) =>
          s.(files := files,
             placements := if updateFails then s.placements
                           else if wp.dotfile then s.placements[p := wp.(repo := false)] else s.placements - {p})
  {
    ThreadComesAndGoes(s.threads, p, ErasedFiles, ErasedFiles);
    TwoSteps(c, s, EraseFiles(p), if updateFails then DropThread(p) else DropRepoFinalizer(p));
  }

  lemma EraseStateTrace(c: Config, s: State, p: string, updateFails: bool)
    requires p in s.placements && p !in s.threads && s.placements[p].deleting && !s.placements[p].repo
    ensures After(c, s, PlacementTrace(c, s, p, false, updateFails)) ==
      if !s.placements[p].dotfile then s
      else s.(files := DeleteState(c, s.files, p),
              placements := if updateFails then s.placements else s.placements - {p})
  {
    ThreadComesAndGoes(s.threads, p, ErasedState, ErasedState);
    TwoSteps(c, s, EraseState(p), if updateFails then DropThread(p) else DropStateFinalizer(p));
  }
}
