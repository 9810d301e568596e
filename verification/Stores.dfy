/** What the machine in `System` does to its store is what the two writers do, in every run in which
    placements are kept apart in the way each of them needs. */
module Stores {
  import opened Wrappers
  import opened Writers
  import opened Placement
  import opened System

  // -------------------------------------------------------------------- Git

  /** Nothing belongs to anyone below a state file's path. */
  ghost predicate StateFilesApart(c: Config) {
    forall p, k :: c.stateFile(p) + "/" <= k ==> c.owner(k) == None && forall q :: k != c.stateFile(q)
  }

  ghost predicate ClearForGit(c: Config, files: Files) {
    IsTree(files) && forall p, k :: k in files ==> !(c.stateFile(p) + "/" <= k)
  }

  /** The store step, if the event is one, is the Git writer's. */
  ghost predicate GitStep(c: Config, s: State, e: Event) {
    var t := Step(c, s, e);
    match e
    case StoreWrite(p) => p in s.threads && s.threads[p].Writing? && GitWrite(c, s.files, p, s.threads[p].ws) == Some(t.files)
    case EraseFiles(p) => GitDeleteWorkloads(c, s.files, p) == Some(t.files)
    case EraseState(p) => GitUpdate(s.files, c.base(p), "", [], [c.statePath(p)]) == Some(t.files)
    case _ => t.files == s.files
  }

  /** A write changes only keys of the placement. */
  lemma WriteKeepsClear(c: Config, p: string, a: Files, b: Files)
    requires ValidConfig(c) && StateFilesApart(c) && OnlyOwn(c, p, a, b) && ClearForGit(c, a) && IsTree(b)
    ensures ClearForGit(c, b)
  {
    forall q, k | k in b
      ensures !(c.stateFile(q) + "/" <= k)
    {
      if c.owner(k) != Some(p) && k != c.stateFile(p) {
        assert k in a;
      }
    }
  }

  lemma NestedOnGit(c: Config, p: string, files: Files, dir: string, creates: seq<Workload>)
    requires dir != "" && IsTree(UpdateFiles(files, c.base(p), dir, creates, []))
    ensures GitUpdate(files, c.base(p), dir, creates, []) == Some(UpdateFiles(files, c.base(p), dir, creates, []))
  {
    GitRefinesIff(files, c.base(p), dir, creates, []);
  }

  lemma WriteOnGit(c: Config, s: State, p: string)
    requires ValidConfig(c) && Apart(c) && Inv(c, s) && Enabled(c, s, StoreWrite(p)) && ClearForGit(c, s.files)
    requires StateFilesApart(c) && IsTree(Step(c, s, StoreWrite(p)).files)
    ensures GitStep(c, s, StoreWrite(p)) && ClearForGit(c, Step(c, s, StoreWrite(p)).files)
  {
    var ws := s.threads[p].ws;
    assert ThreadOk(c, s, p);
    WriteEffect(c, p, ws, s.files);
    if c.mode(p).Nested? {
      NestedOnGit(c, p, s.files, c.dir(p), ws);
    } else {
      ApartSuitsGit(c, p, ws, s.files);
    }
    WriteKeepsClear(c, p, s.files, Step(c, s, StoreWrite(p)).files);
  }

  lemma EraseFilesOnGit(c: Config, files: Files, p: string)
    requires ValidConfig(c) && Apart(c) && StateFilesApart(c) && ClearForGit(c, files)
    requires (c.mode(p).Flat? ==> StateCovers(c, p, files)) && DeleteWorkloads(c, files, p).Some?
    ensures GitDeleteWorkloads(c, files, p) == DeleteWorkloads(c, files, p) && ClearForGit(c, DeleteWorkloads(c, files, p).value)
  {
    DeleteWorkloadsEffect(c, p, files);
    if c.mode(p).Nested? {
      assert TrimSlash(c.dir(p) + "/") == c.dir(p);
      var gone := set k | k in files && Inside(Root(c, p), k);
      assert DeleteWorkloads(c, files, p).value == files - gone;
      RemovalKeepsTree(files, gone);
      NestedOnGit(c, p, files, c.dir(p) + "/", []);
    } else {
      ApartSuitsGit(c, p, [], files);
      GitDeletionIff(c, p, files);
    }
    SmallerIsClear(c, files, DeleteWorkloads(c, files, p).value);
  }

  lemma SmallerIsClear(c: Config, a: Files, b: Files)
    requires ClearForGit(c, a) && b.Keys <= a.Keys
    ensures ClearForGit(c, b)
  {
    assert forall k :: k in b ==> k in a;
  }

  lemma EraseStateOnGit(c: Config, files: Files, p: string)
    requires ValidConfig(c) && ClearForGit(c, files)
    ensures GitUpdate(files, c.base(p), "", [], [c.statePath(p)]) == Some(DeleteState(c, files, p))
    ensures ClearForGit(c, DeleteState(c, files, p))
  {
    DeleteStateEffect(c, p, files);
    RemovalKeepsTree(files, {c.stateFile(p)});
    var paths := [c.statePath(p)];
    assert PathJoin(c.base(p), paths[0]) == c.stateFile(p);
    assert c.stateFile(p) in Listed(c.base(p), paths);
    assert NoListedDirectory(files, c.base(p), [], paths);
    GitRefinesIff(files, c.base(p), "", [], paths);
    SmallerIsClear(c, files, DeleteState(c, files, p));
  }

  lemma StepOnGit(c: Config, s: State, e: Event)
    requires ValidConfig(c) && Apart(c) && StateFilesApart(c) && Inv(c, s) && Enabled(c, s, e) && ClearForGit(c, s.files)
    requires e.StoreWrite? ==> IsTree(Step(c, s, e).files)
    ensures GitStep(c, s, e) && ClearForGit(c, Step(c, s, e).files)
  {
    if e.StoreWrite? {
      WriteOnGit(c, s, e.p);
    } else if e.EraseFiles? {
      assert StatesCover(c, s.files);
      EraseFilesOnGit(c, s.files, e.p);
    } else if e.EraseState? {
      EraseStateOnGit(c, s.files, e.p);
    } else {
      FilesKept(c, s, e);
    }
  }

  /** Every write of the run leaves something a Git tree can hold. */
  ghost predicate FitsGit(c: Config, s: State, events: seq<Event>)
    decreases |events|
  {
    events == [] ||
    ((events[0].StoreWrite? ==> IsTree(Step(c, s, events[0]).files)) && FitsGit(c, Step(c, s, events[0]), events[1..]))
  }

  ghost predicate GitRun(c: Config, s: State, events: seq<Event>)
    decreases |events|
  {
    events == [] || (GitStep(c, s, events[0]) && GitRun(c, Step(c, s, events[0]), events[1..]))
  }

  /** So long as what lies below a placement's path or a state file is nobody else's, and every write
      leaves a tree, each store step of every run is exactly what the Git writer does. */
  lemma {:induction false} RunsOnGit(c: Config, s: State, events: seq<Event>)
    requires ValidConfig(c) && Apart(c) && StateFilesApart(c) && Inv(c, s) && ClearForGit(c, s.files)
    requires Legal(c, s, events) && FitsGit(c, s, events)
    ensures GitRun(c, s, events)
    decreases |events|
  {
    if events != [] {
      StepOnGit(c, s, events[0]);
      StepKeepsInv(c, s, events[0]);
      RunsOnGit(c, Step(c, s, events[0]), events[1..]);
    }
  }

  /** In particular the two reconciles that end a deletion. */
  lemma DeletionOnGit(c: Config, s: State, p: string)
    requires ValidConfig(c) && Apart(c) && StateFilesApart(c) && Inv(c, s) && ClearForGit(c, s.files)
    requires Dying(c, s, p) && p !in s.threads
    ensures GitRun(c, s, Finishing(s, p))
  {
    DeletionCompletes(c, s, p);
    ErasingFits(c, s, Finishing(s, p));
    RunsOnGit(c, s, Finishing(s, p));
  }

  lemma {:induction false} ErasingFits(c: Config, s: State, events: seq<Event>)
    requires forall e :: e in events ==> !e.StoreWrite?
    ensures FitsGit(c, s, events)
    decreases |events|
  {
    if events != [] {
      ErasingFits(c, Step(c, s, events[0]), events[1..]);
    }
  }

  // --------------------------------------------------------------------- S3

  /** What shares a nested directory's name as a bare prefix lies in it, or is nobody's. */
  ghost predicate PrefixesApart(c: Config) {
    forall p, k :: c.mode(p).Nested? && Root(c, p) <= k && !Inside(Root(c, p), k) ==>
      c.owner(k) == None && forall q :: k != c.stateFile(q)
  }

  ghost predicate ClearForS3(c: Config, files: Files) {
    forall p :: c.mode(p).Nested? ==> NoSibling(files, Root(c, p))
  }

  ghost predicate S3Step(c: Config, s: State, e: Event) {
    var t := Step(c, s, e);
    match e
    case StoreWrite(p) =>
      && p in s.threads && s.threads[p].Writing?
      && t.files == (if c.mode(p).Nested? then S3Update(s.files, c.base(p), c.dir(p), s.threads[p].ws, [])
                     else if ReadState(c, s.files, p).None? then s.files
                     else S3Update(s.files, c.base(p), "", [StateWorkload(c, p, s.threads[p].ws)] + s.threads[p].ws,
                                   Obsolete(ReadState(c, s.files, p).value, s.threads[p].ws)))
    case EraseFiles(p) =>
      if c.mode(p).Nested? then t.files == S3Update(s.files, c.base(p), c.dir(p) + "/", [], [])
      else c.stateFile(p) in s.files && c.unmarshal(s.files[c.stateFile(p)]).Some? &&
           t.files == S3Update(s.files, c.base(p), "", [], c.unmarshal(s.files[c.stateFile(p)]).value)
    case EraseState(p) => t.files == S3Update(s.files, c.base(p), "", [], [c.statePath(p)])
    case _ => t.files == s.files
  }

  lemma OwnKeepsClear(c: Config, p: string, a: Files, b: Files)
    requires PrefixesApart(c) && OnlyOwn(c, p, a, b) && ClearForS3(c, a)
    ensures ClearForS3(c, b)
  {
    forall q, k | c.mode(q).Nested? && k in b && Root(c, q) <= k
      ensures Inside(Root(c, q), k)
    {
      if c.owner(k) != Some(p) && k != c.stateFile(p) {
        assert k in a && NoSibling(a, Root(c, q));
      }
    }
  }

  /** The update of one placement is S3's. */
  lemma UpdateOnS3(c: Config, p: string, files: Files, dir: string, creates: seq<Workload>, deletes: seq<string>)
    requires ClearForS3(c, files) && TrimSlash(dir) == TrimSlash(TrimSlash(dir))
    requires dir == "" || (c.mode(p).Nested? && TrimSlash(dir) == c.dir(p) && c.dir(p) != "")
    ensures S3Update(files, c.base(p), dir, creates, deletes) == UpdateFiles(files, c.base(p), dir, creates, deletes)
  {
    S3RefinesIff(files, c.base(p), dir, creates, deletes);
    if dir != "" {
      assert NoSibling(files, Root(c, p));
    }
  }

  lemma StepOnS3(c: Config, s: State, e: Event)
    requires ValidConfig(c) && PrefixesApart(c) && Inv(c, s) && Enabled(c, s, e) && ClearForS3(c, s.files)
    ensures S3Step(c, s, e) && ClearForS3(c, Step(c, s, e).files)
  {
    if e.StoreWrite? {
      WriteOnS3(c, s, e.p);
    } else if e.EraseFiles? {
      EraseFilesOnS3(c, s, e.p);
    } else if e.EraseState? {
      DeleteStateEffect(c, e.p, s.files);
      UpdateOnS3(c, e.p, s.files, "", [], [c.statePath(e.p)]);
      OwnKeepsClear(c, e.p, s.files, Step(c, s, e).files);
    } else {
      FilesKept(c, s, e);
    }
  }

  lemma WriteOnS3(c: Config, s: State, p: string)
    requires ValidConfig(c) && PrefixesApart(c) && Inv(c, s) && Enabled(c, s, StoreWrite(p)) && ClearForS3(c, s.files)
    ensures S3Step(c, s, StoreWrite(p)) && ClearForS3(c, Step(c, s, StoreWrite(p)).files)
  {
    var ws := s.threads[p].ws;
    assert ThreadOk(c, s, p);
    WriteEffect(c, p, ws, s.files);
    if c.mode(p).Nested? {
      UpdateOnS3(c, p, s.files, c.dir(p), ws, []);
    } else {
      UpdateOnS3(c, p, s.files, "", [StateWorkload(c, p, ws)] + ws, Obsolete(ReadState(c, s.files, p).value, ws));
    }
    OwnKeepsClear(c, p, s.files, Step(c, s, StoreWrite(p)).files);
  }

  lemma EraseFilesOnS3(c: Config, s: State, p: string)
    requires ValidConfig(c) && PrefixesApart(c) && Inv(c, s) && Enabled(c, s, EraseFiles(p)) && ClearForS3(c, s.files)
    ensures S3Step(c, s, EraseFiles(p)) && ClearForS3(c, Step(c, s, EraseFiles(p)).files)
  {
    assert StatesCover(c, s.files);
    DeleteWorkloadsEffect(c, p, s.files);
    if c.mode(p).Nested? {
      assert TrimSlash(c.dir(p) + "/") == c.dir(p);
      UpdateOnS3(c, p, s.files, c.dir(p) + "/", [], []);
    } else {
      UpdateOnS3(c, p, s.files, "", [], c.unmarshal(s.files[c.stateFile(p)]).value);
    }
    OwnKeepsClear(c, p, s.files, Step(c, s, EraseFiles(p)).files);
  }

  ghost predicate S3Run(c: Config, s: State, events: seq<Event>)
    decreases |events|
  {
    events == [] || (S3Step(c, s, events[0]) && S3Run(c, Step(c, s, events[0]), events[1..]))
  }

  /** So long as what shares a nested directory's name as a prefix is nobody else's, each store step of
      every run is exactly what the S3 writer does. */
  lemma {:induction false} RunsOnS3(c: Config, s: State, events: seq<Event>)
    requires ValidConfig(c) && PrefixesApart(c) && Inv(c, s) && ClearForS3(c, s.files) && Legal(c, s, events)
    ensures S3Run(c, s, events)
    decreases |events|
  {
    if events != [] {
      StepOnS3(c, s, events[0]);
      StepKeepsInv(c, s, events[0]);
      RunsOnS3(c, Step(c, s, events[0]), events[1..]);
    }
  }

  lemma DeletionOnS3(c: Config, s: State, p: string)
    requires ValidConfig(c) && PrefixesApart(c) && Inv(c, s) && ClearForS3(c, s.files)
    requires Dying(c, s, p) && p !in s.threads
    ensures S3Run(c, s, Finishing(s, p))
  {
    DeletionCompletes(c, s, p);
    RunsOnS3(c, s, Finishing(s, p));
  }
}
