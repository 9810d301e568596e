/** Works, WorkPlacements and the state store under every interleaving of the Work controller, the
    scheduler, the WorkPlacement controller, the work creator and users.

    One reconcile is many steps: a controller reads an object, then touches the store, then updates
    the object, and anything may happen in between; `DropThread` is a crash, a conflict or an API
    error at any such point.  One key is reconciled by one thread at a time. */
module System {
  import opened Wrappers
  import opened Writers
  import opened Placement

  datatype Work = Work(finalizer: bool, deleting: bool)

  /** `repo` and `dotfile` are the finalizers repo-cleanup and kratix-dot-files-cleanup. */
  datatype WorkPlacement = WorkPlacement(ws: seq<Workload>, repo: bool, dotfile: bool, deleting: bool)

  /** How far the WorkPlacement controller got with one placement. */
  datatype Thread =
    | Writing(ws: seq<Workload>)  // read a placement that is not being deleted
    | Wrote                       // wrote its files
    | ErasedFiles                 // removed its files, finalizer still there
    | ErasedState                 // removed its state file, finalizer still there

  datatype State = State(
    works: map<string, Work>,
    placements: map<string, WorkPlacement>,
    passes: set<string>,
    threads: map<string, Thread>,
    files: Files)

  datatype Event =
    // work creator, users, garbage collector
    | CreateWork(w: string)
    | RequestWorkDeletion(w: string)
    | RequestPlacementDeletion(p: string)
    // Work controller and scheduler
    | AddWorkFinalizer(w: string)
    | BeginPass(w: string)
    | ApplyPlacement(p: string, ws: seq<Workload>)
    | UpdatePlacement(p: string, ws: seq<Workload>)
    | MarkDangling(p: string)
    | EndPass(w: string)
    | DeleteWork(w: string, reached: set<string>)
    // WorkPlacement controller
    | BeginWrite(p: string)
    | StoreWrite(p: string)
    | AddPlacementFinalizers(p: string)
    | EraseFiles(p: string)
    | DropRepoFinalizer(p: string)
    | EraseState(p: string)
    | DropStateFinalizer(p: string)
    | DropThread(p: string)

  function Children(c: Config, s: State, w: string): set<string> {
    set p | p in s.placements && c.workOf(p) == w
  }

  predicate ThreadIs(s: State, p: string, t: Thread) {
    p in s.threads && p in s.placements && s.threads[p] == t
  }

  ghost predicate Enabled(c: Config, s: State, e: Event) {
    match e
    case CreateWork(w) => w !in s.works
    case RequestWorkDeletion(w) => w in s.works
    case RequestPlacementDeletion(p) => p in s.placements
    case AddWorkFinalizer(w) => w in s.works && !s.works[w].deleting
    case BeginPass(w) => w in s.works && w !in s.passes && s.works[w].finalizer && !s.works[w].deleting
    case ApplyPlacement(p, ws) => c.workOf(p) in s.passes && OwnWorkloads(c, p, ws)
    case UpdatePlacement(p, ws) => c.workOf(p) in s.passes && OwnWorkloads(c, p, ws) && p in s.placements
    case MarkDangling(p) => c.workOf(p) in s.passes && p in s.placements
    case EndPass(w) => w in s.passes
    case DeleteWork(w, _) => w in s.works && s.works[w].deleting && w !in s.passes
    case BeginWrite(p) => p in s.placements && p !in s.threads && !s.placements[p].deleting
    case StoreWrite(p) =>
      p in s.threads && p in s.placements && s.threads[p].Writing? && Write(c, s.files, p, s.threads[p].ws).Some?
    case AddPlacementFinalizers(p) => ThreadIs(s, p, Wrote) && !s.placements[p].deleting
    case EraseFiles(p) =>
      p in s.placements && p !in s.threads && s.placements[p].deleting && s.placements[p].repo &&
      DeleteWorkloads(c, s.files, p).Some?
    case DropRepoFinalizer(p) => ThreadIs(s, p, ErasedFiles)
    case EraseState(p) =>
      p in s.placements && p !in s.threads && s.placements[p].deleting && !s.placements[p].repo && s.placements[p].dotfile
    case DropStateFinalizer(p) => ThreadIs(s, p, ErasedState)
    case DropThread(p) => p in s.threads
  }

  /** A placement object without finalizers that is being deleted is gone. */
  function Settled(s: State, p: string, wp: WorkPlacement): State {
    if wp.deleting && !wp.repo && !wp.dotfile
    then s.(placements := s.placements - {p}, threads := s.threads - {p})
    else s.(placements := s.placements[p := wp], threads := s.threads - {p})
  }

  /** CreateOrUpdate: the API server refuses a new finalizer on an object that is being deleted. */
  function Applied(s: State, p: string, ws: seq<Workload>): State {
    if p !in s.placements then s.(placements := s.placements[p := WorkPlacement(ws, true, false, false)])
    else if s.placements[p].deleting && !s.placements[p].repo then s
    else s.(placements := s.placements[p := s.placements[p].(ws := ws, repo := true)])
  }

  function Step(c: Config, s: State, e: Event): State {
    match e
    case CreateWork(w) => s.(works := s.works[w := Work(false, false)])
    case RequestWorkDeletion(w) =>
      if w in s.works && s.works[w].finalizer then s.(works := s.works[w := s.works[w].(deleting := true)])
      else s.(works := s.works - {w})
    case AddWorkFinalizer(w) => if w in s.works then s.(works := s.works[w := s.works[w].(finalizer := true)]) else s
    case BeginPass(w) => s.(passes := s.passes + {w})
    case ApplyPlacement(p, ws) => Applied(s, p, ws)
    case UpdatePlacement(p, ws) =>
      if p in s.placements then s.(placements := s.placements[p := s.placements[p].(ws := ws)]) else s
    case MarkDangling(p) => Marked(s, {p})
    case RequestPlacementDeletion(p) => Marked(s, {p})
    case EndPass(w) => s.(passes := s.passes - {w})
    case DeleteWork(w, reached) =>
      if Children(c, s, w) == {} then s.(works := s.works - {w}) else Marked(s, Children(c, s, w) * reached)
    case BeginWrite(p) => if p in s.placements then s.(threads := s.threads[p := Writing(s.placements[p].ws)]) else s
    case StoreWrite(p) =>
      if p in s.threads && s.threads[p].Writing? then
        match Write(c, s.files, p, s.threads[p].ws)
        case Some(files) => s.(files := files, threads := s.threads[p := Wrote])
        case None => s
      else s
    case AddPlacementFinalizers(p) =>
      if p in s.placements then
        s.(placements := s.placements[p := s.placements[p].(repo := true, dotfile := s.placements[p].dotfile || c.mode(p).Flat?)],
           threads := s.threads - {p})
      else s
    case EraseFiles(p) =>
      (match DeleteWorkloads(c, s.files, p)
       case Some(files) => s.(files := files, threads := s.threads[p := ErasedFiles])
       case None => s)
    case DropRepoFinalizer(p) => if p in s.placements then Settled(s, p, s.placements[p].(repo := false)) else s
    case EraseState(p) => s.(files := DeleteState(c, s.files, p), threads := s.threads[p := ErasedState])
    case DropStateFinalizer(p) => if p in s.placements then Settled(s, p, s.placements[p].(dotfile := false)) else s
    case DropThread(p) => s.(threads := s.threads - {p})
  }

  function Marked(s: State, ps: set<string>): State {
    s.(placements := map p | p in s.placements ::
      if p in ps then s.placements[p].(deleting := true) else s.placements[p])
  }

  ghost predicate Legal(c: Config, s: State, events: seq<Event>)
    decreases |events|
  {
    events == [] || (Enabled(c, s, events[0]) && Legal(c, Step(c, s, events[0]), events[1..]))
  }

  function After(c: Config, s: State, events: seq<Event>): State
    decreases |events|
  {
    if events == [] then s else After(c, Step(c, s, events[0]), events[1..])
  }

  /** No objects yet; whatever is in the store belongs to nobody. */
  ghost predicate Initial(c: Config, s: State) {
    && s.works == map[] && s.placements == map[] && s.passes == {} && s.threads == map[]
    && (forall k :: k in s.files ==> c.owner(k) == None)
    && (forall p :: c.stateFile(p) !in s.files)
  }

  // ------------------------------------------------------------- invariant

  predicate Held(s: State, w: string) {
    w in s.works && s.works[w].finalizer
  }

  ghost predicate PlacementOk(c: Config, s: State, p: string)
    requires p in s.placements
  {
    var wp := s.placements[p];
    && Held(s, c.workOf(p))
    && (!wp.deleting ==> wp.repo)
    && (wp.repo || wp.dotfile)
    && OwnWorkloads(c, p, wp.ws)
    && (wp.dotfile ==> c.mode(p).Flat?)
    && (wp.dotfile && wp.repo ==> c.stateFile(p) in s.files)
  }

  ghost predicate ThreadOk(c: Config, s: State, p: string)
    requires p in s.threads
  {
    p in s.placements &&
    var wp := s.placements[p];
    match s.threads[p]
    case Writing(ws) => wp.repo && OwnWorkloads(c, p, ws)
    case Wrote => wp.repo && (c.mode(p).Flat? ==> c.stateFile(p) in s.files)
    case ErasedFiles => wp.deleting && wp.repo && NoOwnFiles(c, p, s.files)
    case ErasedState => wp.deleting && !wp.repo && wp.dotfile && c.stateFile(p) !in s.files
  }

  /** Every workload file has an existing placement that still holds the cleanup finalizer. */
  ghost predicate FilesHeld(c: Config, s: State) {
    forall k :: k in s.files && c.owner(k).Some? ==>
      c.owner(k).value in s.placements && s.placements[c.owner(k).value].repo
  }

  ghost predicate StatesCover(c: Config, files: Files) {
    forall p :: c.mode(p).Flat? ==> StateCovers(c, p, files)
  }

  ghost predicate ObjectsOk(c: Config, s: State) {
    && (forall w :: w in s.passes ==> Held(s, w))
    && (forall p :: p in s.placements ==> PlacementOk(c, s, p))
    && (forall p :: p in s.threads ==> ThreadOk(c, s, p))
  }

  ghost predicate Inv(c: Config, s: State) {
    ObjectsOk(c, s) && FilesHeld(c, s) && StatesCover(c, s.files)
  }

  // ---------------------------------------------------------- preservation

  predicate TouchesWorks(e: Event) {
    e.CreateWork? || e.RequestWorkDeletion? || e.AddWorkFinalizer? || e.BeginPass? || e.EndPass? || e.DeleteWork?
  }

  /** A change of Works and passes that keeps every Work in use. */
  lemma WorkFrame(c: Config, s: State, s': State)
    requires Inv(c, s)
    requires s'.placements == s.placements && s'.threads == s.threads && s'.files == s.files
    requires forall w :: w in s'.passes ==> Held(s', w)
    requires forall p :: p in s.placements ==> Held(s', c.workOf(p))
    ensures Inv(c, s')
  {
    forall p | p in s'.placements
      ensures PlacementOk(c, s', p)
    {
      assert PlacementOk(c, s, p);
    }
    forall p | p in s'.threads
      ensures ThreadOk(c, s', p)
    {
      assert ThreadOk(c, s, p);
    }
  }

  lemma MarkingKeepsInv(c: Config, s: State, ps: set<string>)
    requires Inv(c, s)
    ensures Inv(c, Marked(s, ps))
  {
    var s' := Marked(s, ps);
    forall p | p in s'.placements
      ensures PlacementOk(c, s', p)
    {
      assert PlacementOk(c, s, p);
    }
    forall p | p in s'.threads
      ensures ThreadOk(c, s', p)
    {
      assert ThreadOk(c, s, p);
    }
  }

  lemma PlacementsHold(c: Config, s: State)
    requires Inv(c, s)
    ensures forall p :: p in s.placements ==> Held(s, c.workOf(p))
  {
    forall p | p in s.placements
      ensures Held(s, c.workOf(p))
    {
      assert PlacementOk(c, s, p);
    }
  }

  lemma DeleteWorkKeepsInv(c: Config, s: State, w: string, reached: set<string>)
    requires Inv(c, s) && Enabled(c, s, DeleteWork(w, reached))
    ensures Inv(c, Step(c, s, DeleteWork(w, reached)))
  {
    if Children(c, s, w) != {} {
      MarkingKeepsInv(c, s, Children(c, s, w) * reached);
    } else {
      PlacementsHold(c, s);
      assert forall p :: p in s.placements ==> p !in Children(c, s, w) ==> c.workOf(p) != w;
      WorkFrame(c, s, s.(works := s.works - {w}));
    }
  }

  lemma WorkStepsKeepInv(c: Config, s: State, e: Event)
    requires ValidConfig(c) && Inv(c, s) && Enabled(c, s, e) && TouchesWorks(e) && !e.DeleteWork?
    ensures Inv(c, Step(c, s, e))
  {
    PlacementsHold(c, s);
    WorkFrame(c, s, Step(c, s, e));
  }

  /** A change of one placement object and its thread. */
  lemma ObjectFrame(c: Config, s: State, s': State, p: string)
    requires Inv(c, s)
    requires s'.works == s.works && s'.passes == s.passes && s'.files == s.files
    requires s'.placements - {p} == s.placements - {p} && s'.threads - {p} == s.threads - {p}
    requires p in s'.placements ==> PlacementOk(c, s', p)
    requires p in s'.threads ==> ThreadOk(c, s', p)
    requires (p in s'.placements && s'.placements[p].repo) || NoOwnFiles(c, p, s.files)
    ensures Inv(c, s')
  {
    forall q | q != p
      ensures q in s'.placements <==> q in s.placements
      ensures q in s.placements ==> s'.placements[q] == s.placements[q] && PlacementOk(c, s', q)
      ensures q in s'.threads ==> ThreadOk(c, s', q)
    {
      SameElsewhere(s.placements, s'.placements, p, q);
      SameElsewhere(s.threads, s'.threads, p, q);
      assert q in s.placements ==> PlacementOk(c, s, q);
      assert q in s.threads ==> ThreadOk(c, s, q);
    }
  }

  lemma SameElsewhere<V>(a: map<string, V>, b: map<string, V>, p: string, q: string)
    requires a - {p} == b - {p} && q != p
    ensures q in a <==> q in b
    ensures q in a ==> a[q] == b[q]
  {
    assert q in a <==> q in a - {p};
    assert q in b <==> q in b - {p};
    assert q in a ==> (a - {p})[q] == a[q];
    assert q in b ==> (b - {p})[q] == b[q];
  }

  lemma ApplyKeepsInv(c: Config, s: State, p: string, ws: seq<Workload>)
    requires ValidConfig(c) && Inv(c, s) && Enabled(c, s, ApplyPlacement(p, ws))
    ensures Inv(c, Applied(s, p, ws))
  {
    assert Held(s, c.workOf(p));
    assert p in s.placements ==> PlacementOk(c, s, p);
    assert p in s.threads ==> ThreadOk(c, s, p);
    if p !in s.placements || !s.placements[p].deleting || s.placements[p].repo {
      ObjectFrame(c, s, Applied(s, p, ws), p);
    }
  }

  lemma UpdateKeepsInv(c: Config, s: State, p: string, ws: seq<Workload>)
    requires ValidConfig(c) && Inv(c, s) && Enabled(c, s, UpdatePlacement(p, ws))
    ensures Inv(c, Step(c, s, UpdatePlacement(p, ws)))
  {
    assert PlacementOk(c, s, p);
    assert p in s.threads ==> ThreadOk(c, s, p);
    assert !s.placements[p].repo ==> NoOwnFiles(c, p, s.files);
    ObjectFrame(c, s, Step(c, s, UpdatePlacement(p, ws)), p);
  }

  lemma ThreadStepsKeepInv(c: Config, s: State, e: Event)
    requires ValidConfig(c) && Inv(c, s) && Enabled(c, s, e)
    requires e.BeginWrite? || e.DropThread?
    ensures Inv(c, Step(c, s, e))
  {
    assert e.p in s.threads ==> ThreadOk(c, s, e.p);
    assert PlacementOk(c, s, e.p);
    ObjectFrame(c, s, Step(c, s, e), e.p);
  }

  lemma AddFinalizersKeepsInv(c: Config, s: State, p: string)
    requires ValidConfig(c) && Inv(c, s) && Enabled(c, s, AddPlacementFinalizers(p))
    ensures Inv(c, Step(c, s, AddPlacementFinalizers(p)))
  {
    assert ThreadOk(c, s, p) && PlacementOk(c, s, p);
    ObjectFrame(c, s, Step(c, s, AddPlacementFinalizers(p)), p);
  }

  /** A finalizer of `p` goes; so does `p` if it was the last one. */
  lemma SettlingKeepsInv(c: Config, s: State, p: string, wp: WorkPlacement)
    requires Inv(c, s) && p in s.placements && NoOwnFiles(c, p, s.files) && !wp.repo && wp.deleting
    requires wp == s.placements[p].(repo := false) || wp == s.placements[p].(dotfile := false)
    ensures Inv(c, Settled(s, p, wp))
  {
    assert PlacementOk(c, s, p);
    ObjectFrame(c, s, Settled(s, p, wp), p);
  }

  lemma DropFinalizerKeepsInv(c: Config, s: State, e: Event)
    requires ValidConfig(c) && Inv(c, s) && Enabled(c, s, e)
    requires e.DropRepoFinalizer? || e.DropStateFinalizer?
    ensures Inv(c, Step(c, s, e))
  {
    var p := e.p;
    assert ThreadOk(c, s, p) && PlacementOk(c, s, p);
    assert !s.placements[p].repo ==> NoOwnFiles(c, p, s.files);
    SettlingKeepsInv(c, s, p, if e.DropRepoFinalizer? then s.placements[p].(repo := false) else s.placements[p].(dotfile := false));
  }

  /** Other placements see nothing of a store step of `p`. */
  lemma OthersUnaffected(c: Config, p: string, a: Files, b: Files, q: string)
    requires ValidConfig(c) && OnlyOwn(c, p, a, b) && q != p
    ensures c.stateFile(q) in a <==> c.stateFile(q) in b
    ensures NoOwnFiles(c, q, a) <==> NoOwnFiles(c, q, b)
    ensures StateCovers(c, q, a) ==> StateCovers(c, q, b)
  {
    assert c.stateFile(q) != c.stateFile(p);
    assert forall k :: c.owner(k) == Some(q) ==> c.owner(k) != Some(p) && k != c.stateFile(p);
  }

  /** A step of `p`'s thread that changes only own paths of `p` keeps everything about the others. */
  lemma StoreFrame(c: Config, s: State, s': State, p: string)
    requires ValidConfig(c) && Inv(c, s) && p in s.placements
    requires s'.works == s.works && s'.placements == s.placements && s'.passes == s.passes
    requires OnlyOwn(c, p, s.files, s'.files)
    requires s'.threads - {p} == s.threads - {p}
    requires PlacementOk(c, s', p) && (p in s'.threads ==> ThreadOk(c, s', p))
    requires c.mode(p).Flat? ==> StateCovers(c, p, s'.files)
    requires s.placements[p].repo || NoOwnFiles(c, p, s'.files)
    ensures Inv(c, s')
  {
    forall q | q != p
      ensures q in s'.placements ==> PlacementOk(c, s', q)
      ensures q in s'.threads ==> ThreadOk(c, s', q)
      ensures c.mode(q).Flat? ==> StateCovers(c, q, s'.files)
    {
      OthersUnaffected(c, p, s.files, s'.files, q);
      assert q in s.placements ==> PlacementOk(c, s, q);
      SameElsewhere(s.threads, s'.threads, p, q);
      assert q in s.threads ==> ThreadOk(c, s, q);
    }
    forall k | k in s'.files && c.owner(k).Some?
      ensures c.owner(k).value in s'.placements && s'.placements[c.owner(k).value].repo
    {
      if c.owner(k) != Some(p) {
        assert k != c.stateFile(p);
        assert k in s.files;
      }
    }
  }

  lemma StoreWriteKeepsInv(c: Config, s: State, p: string)
    requires ValidConfig(c) && Inv(c, s) && Enabled(c, s, StoreWrite(p))
    ensures Inv(c, Step(c, s, StoreWrite(p)))
  {
    assert PlacementOk(c, s, p) && ThreadOk(c, s, p);
    WriteEffect(c, p, s.threads[p].ws, s.files);
    StoreFrame(c, s, Step(c, s, StoreWrite(p)), p);
  }

  /** The placement's files are gone and its state file is as it was. */
  lemma ErasedKeepsInv(c: Config, s: State, p: string, files: Files)
    requires ValidConfig(c) && Inv(c, s) && p in s.placements && s.placements[p].deleting && s.placements[p].repo
    requires OnlyOwn(c, p, s.files, files) && NoOwnFiles(c, p, files)
    requires c.stateFile(p) in s.files <==> c.stateFile(p) in files
    requires c.mode(p).Flat? ==> StateCovers(c, p, files)
    ensures Inv(c, s.(files := files, threads := s.threads[p := ErasedFiles]))
  {
    assert PlacementOk(c, s, p);
    StoreFrame(c, s, s.(files := files, threads := s.threads[p := ErasedFiles]), p);
  }

  lemma EraseFilesKeepsInv(c: Config, s: State, p: string)
    requires ValidConfig(c) && Inv(c, s) && Enabled(c, s, EraseFiles(p))
    ensures Inv(c, Step(c, s, EraseFiles(p)))
  {
    assert StatesCover(c, s.files);
    DeleteWorkloadsEffect(c, p, s.files);
    ErasedKeepsInv(c, s, p, DeleteWorkloads(c, s.files, p).value);
  }

  lemma EraseStateKeepsInv(c: Config, s: State, p: string)
    requires ValidConfig(c) && Inv(c, s) && Enabled(c, s, EraseState(p))
    ensures Inv(c, Step(c, s, EraseState(p)))
  {
    assert PlacementOk(c, s, p);
    DeleteStateEffect(c, p, s.files);
    assert NoOwnFiles(c, p, s.files);
    StoreFrame(c, s, Step(c, s, EraseState(p)), p);
  }

  lemma StepKeepsInv(c: Config, s: State, e: Event)
    requires ValidConfig(c) && Inv(c, s) && Enabled(c, s, e)
    ensures Inv(c, Step(c, s, e))
  {
    if e.DeleteWork? {
      DeleteWorkKeepsInv(c, s, e.w, e.reached);
    } else if TouchesWorks(e) {
      WorkStepsKeepInv(c, s, e);
    } else {
      match e
      case StoreWrite(p) => StoreWriteKeepsInv(c, s, p);
      case EraseFiles(p) => EraseFilesKeepsInv(c, s, p);
      case EraseState(p) => EraseStateKeepsInv(c, s, p);
      case ApplyPlacement(p, ws) => ApplyKeepsInv(c, s, p, ws);
      case UpdatePlacement(p, ws) => UpdateKeepsInv(c, s, p, ws);
      case MarkDangling(p) => MarkingKeepsInv(c, s, {p});
      case RequestPlacementDeletion(p) => MarkingKeepsInv(c, s, {p});
      case AddPlacementFinalizers(p) => AddFinalizersKeepsInv(c, s, p);
      case BeginWrite(_) => ThreadStepsKeepInv(c, s, e);
      case DropThread(_) => ThreadStepsKeepInv(c, s, e);
      case _ => DropFinalizerKeepsInv(c, s, e);
    }
  }

  lemma {:induction false} RunKeepsInv(c: Config, s: State, events: seq<Event>)
    requires ValidConfig(c) && Inv(c, s) && Legal(c, s, events)
    ensures Inv(c, After(c, s, events))
    decreases |events|
  {
    if events != [] {
      StepKeepsInv(c, s, events[0]);
      RunKeepsInv(c, Step(c, s, events[0]), events[1..]);
    }
  }

  /** In every reachable state each workload file in the store belongs to a WorkPlacement that
      exists and holds its repo-cleanup finalizer, and each WorkPlacement's Work exists. */
  lemma NoOrphans(c: Config, s: State, events: seq<Event>)
    requires ValidConfig(c) && Initial(c, s) && Legal(c, s, events)
    ensures var t := After(c, s, events);
      && (forall k :: k in t.files && c.owner(k).Some? ==>
            c.owner(k).value in t.placements && t.placements[c.owner(k).value].repo)
      && (forall p :: p in t.placements ==> c.workOf(p) in t.works)
  {
    RunKeepsInv(c, s, events);
    var t := After(c, s, events);
    forall p | p in t.placements
      ensures c.workOf(p) in t.works
    {
      assert PlacementOk(c, t, p);
    }
  }

  // -------------------------------------------------------------- deletion

  /** Being deleted, and able to: without nested directories the files can only be found through
      the state file. */
  predicate Dying(c: Config, s: State, p: string) {
    && p in s.placements
    && s.placements[p].deleting
    && (s.placements[p].repo ==> c.mode(p).Nested? || c.stateFile(p) in s.files)
  }

  lemma CleanupRunsIff(c: Config, s: State, p: string)
    requires ValidConfig(c) && Inv(c, s)
    requires p in s.placements && p !in s.threads && s.placements[p].deleting && s.placements[p].repo
    ensures Enabled(c, s, EraseFiles(p)) <==> c.mode(p).Nested? || c.stateFile(p) in s.files
  {
    CleanupPossibleIff(c, s.files, p);
  }

  lemma CleanupPossibleIff(c: Config, files: Files, p: string)
    requires ValidConfig(c) && StatesCover(c, files)
    ensures DeleteWorkloads(c, files, p).Some? <==> c.mode(p).Nested? || c.stateFile(p) in files
  {
    DeleteWorkloadsEffect(c, p, files);
  }

  lemma StateFileStays(c: Config, s: State, e: Event, p: string)
    requires ValidConfig(c) && Inv(c, s) && Enabled(c, s, e)
    requires p in s.placements && s.placements[p].repo && c.mode(p).Flat? && c.stateFile(p) in s.files
    ensures c.stateFile(p) in Step(c, s, e).files
  {
    StateFileStep(c, s, e, p);
  }

  /** A deletion is never revoked, and a placement being deleted never gets its finalizer back. */
  lemma DeletionIsFinal(c: Config, s: State, e: Event, p: string)
    requires Enabled(c, s, e) && p in s.placements && s.placements[p].deleting
    requires p in Step(c, s, e).placements
    ensures Step(c, s, e).placements[p].deleting
    ensures Step(c, s, e).placements[p].repo ==> s.placements[p].repo
  {
    if TouchesWorks(e) || e.MarkDangling? || e.RequestPlacementDeletion? {
    } else if e.ApplyPlacement? || e.UpdatePlacement? || e.AddPlacementFinalizers? {
    } else if e.DropRepoFinalizer? || e.DropStateFinalizer? {
      SettledKeeps(s, e.p, if e.DropRepoFinalizer? then s.placements[e.p].(repo := false) else s.placements[e.p].(dotfile := false), p);
    } else {
      StoreStepsKeepObjects(c, s, e);
    }
  }

  lemma SettledKeeps(s: State, q: string, wp: WorkPlacement, p: string)
    requires p in Settled(s, q, wp).placements
    ensures Settled(s, q, wp).placements[p] == if p == q then wp else s.placements[p]
  {
  }

  lemma StoreStepsKeepObjects(c: Config, s: State, e: Event)
    requires e.BeginWrite? || e.StoreWrite? || e.EraseFiles? || e.EraseState? || e.DropThread?
    ensures Step(c, s, e).placements == s.placements
  {
  }

  lemma DyingStep(c: Config, s: State, e: Event, p: string)
    requires ValidConfig(c) && Inv(c, s) && Enabled(c, s, e) && Dying(c, s, p)
    ensures p !in Step(c, s, e).placements || Dying(c, Step(c, s, e), p)
  {
    if p in Step(c, s, e).placements {
      DeletionIsFinal(c, s, e, p);
    }
    if s.placements[p].repo && c.mode(p).Flat? {
      StateFileStays(c, s, e, p);
    }
  }

  /** Crashes, conflicts and interference never make a deletion impossible: along every run the
      placement keeps being deletable until it is gone. */
  lemma {:induction false} DyingUntilGone(c: Config, s: State, events: seq<Event>, p: string)
    requires ValidConfig(c) && Inv(c, s) && Legal(c, s, events) && Dying(c, s, p)
    ensures Dying(c, After(c, s, events), p) ||
            exists k :: 0 <= k <= |events| && p !in After(c, s, events[..k]).placements
    decreases |events|
  {
    if events != [] {
      var s1, rest := Step(c, s, events[0]), events[1..];
      StepKeepsInv(c, s, events[0]);
      DyingStep(c, s, events[0], p);
      if p !in s1.placements {
        assert events[..1][1..] == [];
        assert After(c, s, events[..1]) == s1;
      } else {
        DyingUntilGone(c, s1, rest, p);
        if !Dying(c, After(c, s1, rest), p) {
          var k :| 0 <= k <= |rest| && p !in After(c, s1, rest[..k]).placements;
          assert events[..k + 1][1..] == rest[..k];
          assert After(c, s, events[..k + 1]) == After(c, s1, rest[..k]);
        }
      }
    }
  }

  /** The reconciles that finish a deletion. */
  function Finishing(s: State, p: string): seq<Event>
    requires p in s.placements
  {
    (if s.placements[p].repo then [EraseFiles(p), DropRepoFinalizer(p)] else []) +
    (if s.placements[p].dotfile then [EraseState(p), DropStateFinalizer(p)] else [])
  }

  lemma TwoSteps(c: Config, s: State, a: Event, b: Event)
    ensures After(c, s, [a, b]) == Step(c, Step(c, s, a), b)
    ensures Enabled(c, s, a) && Enabled(c, Step(c, s, a), b) ==> Legal(c, s, [a, b])
  {
    var s1, es := Step(c, s, a), [a, b];
    assert es[1..] == [b] && [b][1..] == [];
    assert After(c, s1, [b]) == After(c, Step(c, s1, b), []);
    assert Legal(c, Step(c, s1, b), []);
    assert Enabled(c, s1, b) ==> Legal(c, s1, [b]);
  }

  lemma EraseFilesRuns(c: Config, s: State, p: string)
    requires ValidConfig(c) && Inv(c, s) && Dying(c, s, p) && p !in s.threads && s.placements[p].repo
    ensures var es := [EraseFiles(p), DropRepoFinalizer(p)];
      var t := After(c, s, es);
      && Legal(c, s, es) && Inv(c, t)
      && t.works == s.works && p !in t.threads && OnlyOwn(c, p, s.files, t.files) && NoOwnFiles(c, p, t.files)
      && t.placements == if s.placements[p].dotfile
                         then s.placements[p := s.placements[p].(repo := false)] else s.placements - {p}
  {
    assert PlacementOk(c, s, p);
    TwoSteps(c, s, EraseFiles(p), DropRepoFinalizer(p));
    DeleteWorkloadsEffect(c, p, s.files);
    StepKeepsInv(c, s, EraseFiles(p));
    StepKeepsInv(c, Step(c, s, EraseFiles(p)), DropRepoFinalizer(p));
  }

  lemma EraseStateRuns(c: Config, s: State, p: string)
    requires ValidConfig(c) && Inv(c, s) && Dying(c, s, p) && p !in s.threads
    requires !s.placements[p].repo && s.placements[p].dotfile
    ensures var es := [EraseState(p), DropStateFinalizer(p)];
      var t := After(c, s, es);
      && Legal(c, s, es) && Inv(c, t)
      && t.works == s.works && t.placements == s.placements - {p} && t.files == s.files - {c.stateFile(p)}
  {
    TwoSteps(c, s, EraseState(p), DropStateFinalizer(p));
    DeleteStateEffect(c, p, s.files);
    StepKeepsInv(c, s, EraseState(p));
    StepKeepsInv(c, Step(c, s, EraseState(p)), DropStateFinalizer(p));
  }

  lemma {:induction false} AfterConcat(c: Config, s: State, a: seq<Event>, b: seq<Event>)
    requires Legal(c, s, a) && Legal(c, After(c, s, a), b)
    ensures Legal(c, s, a + b) && After(c, s, a + b) == After(c, After(c, s, a), b)
    decreases |a|
  {
    if a == [] {
      assert a + b == b;
    } else {
      assert (a + b)[1..] == a[1..] + b;
      AfterConcat(c, Step(c, s, a[0]), a[1..], b);
    }
  }

  /** At most two undisturbed reconciles finish a deletion, however many attempts crashed before:
      the placement and all its files are gone, its state file too if that finalizer was set, and
      neither Works nor other placements nor foreign files changed. */
  lemma DeletionCompletes(c: Config, s: State, p: string)
    requires ValidConfig(c) && Inv(c, s) && Dying(c, s, p) && p !in s.threads
    ensures var es := Finishing(s, p);
      var t := After(c, s, es);
      && Legal(c, s, es)
      && t.placements == s.placements - {p} && t.works == s.works
      && NoOwnFiles(c, p, t.files)
      && (s.placements[p].dotfile ==> c.stateFile(p) !in t.files)
      && OnlyOwn(c, p, s.files, t.files)
  {
    assert PlacementOk(c, s, p);
    var first := if s.placements[p].repo then [EraseFiles(p), DropRepoFinalizer(p)] else [];
    if s.placements[p].repo {
      EraseFilesRuns(c, s, p);
    }
    var mid := After(c, s, first);
    if s.placements[p].dotfile {
      EraseStateRuns(c, mid, p);
      AfterConcat(c, s, first, [EraseState(p), DropStateFinalizer(p)]);
      assert Finishing(s, p) == first + [EraseState(p), DropStateFinalizer(p)];
      assert s.placements[p := s.placements[p].(repo := false)] - {p} == s.placements - {p};
      assert NoOwnFiles(c, p, mid.files);
    } else {
      assert Finishing(s, p) == first;
    }
  }

  // ------------------------------------------------ when a deletion can end

  /** Being deleted, with files to look for and no state file to find them by. */
  predicate Stranded(c: Config, s: State, p: string) {
    && p in s.placements && s.placements[p].deleting && s.placements[p].repo
    && p !in s.threads && c.mode(p).Flat? && c.stateFile(p) !in s.files
  }

  /** What one step does to a placement's state file: a write of the placement leaves one, the
      second phase of its deletion removes it, and nothing else touches it. */
  function Touched(present: bool, e: Event, p: string): bool {
    if e == StoreWrite(p) then true else if e == EraseState(p) then false else present
  }

  lemma StateFileStep(c: Config, s: State, e: Event, p: string)
    requires ValidConfig(c) && Inv(c, s) && Enabled(c, s, e) && c.mode(p).Flat?
    ensures c.stateFile(p) in Step(c, s, e).files <==> Touched(c.stateFile(p) in s.files, e, p)
  {
    if e.StoreWrite? {
      assert ThreadOk(c, s, e.p);
      StateFileWrite(c, s.files, e.p, s.threads[e.p].ws, p);
    } else if e.EraseFiles? {
      StateFileErase(c, s.files, e.p, p);
    } else if e.EraseState? {
      DeleteStateEffect(c, e.p, s.files);
    } else {
      FilesKept(c, s, e);
    }
  }

  lemma FilesKept(c: Config, s: State, e: Event)
    requires !e.StoreWrite? && !e.EraseFiles? && !e.EraseState?
    ensures Step(c, s, e).files == s.files
  {
    if TouchesWorks(e) {
    } else if e.ApplyPlacement? || e.UpdatePlacement? || e.MarkDangling? || e.RequestPlacementDeletion? {
    } else {
    }
  }

  lemma StateFileWrite(c: Config, files: Files, q: string, ws: seq<Workload>, p: string)
    requires ValidConfig(c) && OwnWorkloads(c, q, ws) && c.mode(p).Flat? && StatesCover(c, files)
    ensures var r := Write(c, files, q, ws);
      r.Some? && (c.stateFile(p) in r.value <==> p == q || c.stateFile(p) in files)
  {
    WriteEffect(c, q, ws, files);
    if q != p {
      OthersUnaffected(c, q, files, Write(c, files, q, ws).value, p);
    }
  }

  lemma StateFileErase(c: Config, files: Files, q: string, p: string)
    requires ValidConfig(c) && c.mode(p).Flat? && StatesCover(c, files) && DeleteWorkloads(c, files, q).Some?
    ensures c.stateFile(p) in DeleteWorkloads(c, files, q).value <==> c.stateFile(p) in files
  {
    DeleteWorkloadsEffect(c, q, files);
    if q != p {
      OthersUnaffected(c, q, files, DeleteWorkloads(c, files, q).value, p);
    }
  }

  /** Whether the last of the placement's writes and state-file removals was a write. */
  function Written(events: seq<Event>, p: string, present: bool): bool
    decreases |events|
  {
    if events == [] then present else Written(events[1..], p, Touched(present, events[0], p))
  }

  lemma {:induction false} StateFileIff(c: Config, s: State, events: seq<Event>, p: string)
    requires ValidConfig(c) && Inv(c, s) && Legal(c, s, events) && c.mode(p).Flat?
    ensures c.stateFile(p) in After(c, s, events).files <==> Written(events, p, c.stateFile(p) in s.files)
    decreases |events|
  {
    if events != [] {
      StateFileStep(c, s, events[0], p);
      StepKeepsInv(c, s, events[0]);
      StateFileIff(c, Step(c, s, events[0]), events[1..], p);
    }
  }

  lemma StrandedStep(c: Config, s: State, e: Event, p: string)
    requires ValidConfig(c) && Inv(c, s) && Enabled(c, s, e) && Stranded(c, s, p)
    ensures Stranded(c, Step(c, s, e), p)
  {
    CleanupRunsIff(c, s, p);
    StateFileStep(c, s, e, p);
    StrandedObject(c, s, e, p);
  }

  /** The object and its missing thread stay as they are. */
  lemma StrandedObject(c: Config, s: State, e: Event, p: string)
    requires Enabled(c, s, e) && Stranded(c, s, p) && e != EraseFiles(p)
    ensures StaysDoomed(Step(c, s, e), p)
  {
    if TouchesWorks(e) || e.MarkDangling? || e.RequestPlacementDeletion? {
      StrandedThroughMarks(c, s, e, p);
    } else if e.ApplyPlacement? || e.UpdatePlacement? || e.AddPlacementFinalizers? {
      StrandedThroughUpdates(c, s, e, p);
    } else if e.DropRepoFinalizer? || e.DropStateFinalizer? {
      StrandedThroughDrops(c, s, e, p);
    } else {
      StoreStepsKeepObjects(c, s, e);
    }
  }

  predicate StaysDoomed(s: State, p: string) {
    p in s.placements && s.placements[p].deleting && s.placements[p].repo && p !in s.threads
  }

  lemma StrandedThroughMarks(c: Config, s: State, e: Event, p: string)
    requires Enabled(c, s, e) && Stranded(c, s, p) && (TouchesWorks(e) || e.MarkDangling? || e.RequestPlacementDeletion?)
    ensures StaysDoomed(Step(c, s, e), p)
  {
  }

  lemma StrandedThroughUpdates(c: Config, s: State, e: Event, p: string)
    requires Enabled(c, s, e) && Stranded(c, s, p) && (e.ApplyPlacement? || e.UpdatePlacement? || e.AddPlacementFinalizers?)
    ensures StaysDoomed(Step(c, s, e), p)
  {
  }

  lemma StrandedThroughDrops(c: Config, s: State, e: Event, p: string)
    requires Enabled(c, s, e) && Stranded(c, s, p) && (e.DropRepoFinalizer? || e.DropStateFinalizer?)
    ensures StaysDoomed(Step(c, s, e), p)
  {
  }

  /** No run gets a stranded placement out of the cluster. */
  lemma {:induction false} StrandedForever(c: Config, s: State, events: seq<Event>, p: string)
    requires ValidConfig(c) && Inv(c, s) && Legal(c, s, events) && Stranded(c, s, p)
    ensures Stranded(c, After(c, s, events), p)
    decreases |events|
  {
    if events != [] {
      StrandedStep(c, s, events[0], p);
      StepKeepsInv(c, s, events[0]);
      StrandedForever(c, Step(c, s, events[0]), events[1..], p);
    }
  }

  /** Some continuation of the run ends with the placement gone. */
  ghost predicate CanBeDeleted(c: Config, s: State, p: string) {
    exists more :: Legal(c, s, more) && p !in After(c, s, more).placements
  }

  /** In every reachable state with no reconcile in flight, a placement that is being deleted can
      still be brought to an end if and only if its files are gone, it is nested, or the last of its
      writes was not followed by the removal of its state file. */
  lemma DeletionEndsIff(c: Config, s0: State, events: seq<Event>, p: string)
    requires ValidConfig(c) && Initial(c, s0) && Legal(c, s0, events)
    requires var s := After(c, s0, events); p in s.placements && s.placements[p].deleting && p !in s.threads
    ensures var s := After(c, s0, events);
      CanBeDeleted(c, s, p) <==> !s.placements[p].repo || c.mode(p).Nested? || Written(events, p, false)
  {
    RunKeepsInv(c, s0, events);
    var s := After(c, s0, events);
    if c.mode(p).Flat? {
      StateFileIff(c, s0, events, p);
    }
    if Stranded(c, s, p) {
      forall more | Legal(c, s, more)
        ensures p in After(c, s, more).placements
      {
        StrandedForever(c, s, more, p);
      }
    } else {
      DeletionCompletes(c, s, p);
      assert p !in After(c, s, Finishing(s, p)).placements;
    }
  }

  /** The run that strands a placement: its Work is deleted before the first write. */
  function NeverWritten(w: string, p: string): seq<Event> {
    [CreateWork(w), AddWorkFinalizer(w), BeginPass(w), ApplyPlacement(p, []), EndPass(w), RequestWorkDeletion(w), DeleteWork(w, {p})]
  }

  lemma NeverWrittenBegins(c: Config, s: State, p: string)
    requires Initial(c, s)
    ensures var w := c.workOf(p);
      var es := [CreateWork(w), AddWorkFinalizer(w), BeginPass(w)];
      Legal(c, s, es) && After(c, s, es) == State(map[w := Work(true, false)], map[], {w}, map[], s.files)
  {
    var w := c.workOf(p);
    ThreeSteps(c, s, CreateWork(w), AddWorkFinalizer(w), BeginPass(w));
  }

  lemma NeverWrittenPlaces(c: Config, files: Files, p: string)
    ensures var w := c.workOf(p);
      var es := [ApplyPlacement(p, []), EndPass(w)];
      var s := State(map[w := Work(true, false)], map[], {w}, map[], files);
      && Legal(c, s, es)
      && After(c, s, es) == State(map[w := Work(true, false)], map[p := WorkPlacement([], true, false, false)], {}, map[], files)
  {
    var w := c.workOf(p);
    TwoSteps(c, State(map[w := Work(true, false)], map[], {w}, map[], files), ApplyPlacement(p, []), EndPass(w));
  }

  lemma NeverWrittenEnds(c: Config, files: Files, p: string)
    ensures var w := c.workOf(p);
      var es := [RequestWorkDeletion(w), DeleteWork(w, {p})];
      var s := State(map[w := Work(true, false)], map[p := WorkPlacement([], true, false, false)], {}, map[], files);
      && Legal(c, s, es)
      && After(c, s, es) == State(map[w := Work(true, true)], map[p := WorkPlacement([], true, false, true)], {}, map[], files)
  {
    var w := c.workOf(p);
    var s := State(map[w := Work(true, false)], map[p := WorkPlacement([], true, false, false)], {}, map[], files);
    TwoSteps(c, s, RequestWorkDeletion(w), DeleteWork(w, {p}));
    assert Children(c, Step(c, s, RequestWorkDeletion(w)), w) == {p};
  }

  lemma NeverWrittenRuns(c: Config, s: State, p: string)
    requires Initial(c, s)
    ensures var w := c.workOf(p);
      && Legal(c, s, NeverWritten(w, p))
      && After(c, s, NeverWritten(w, p)) ==
         State(map[w := Work(true, true)], map[p := WorkPlacement([], true, false, true)], {}, map[], s.files)
  {
    var w := c.workOf(p);
    var front, back := [CreateWork(w), AddWorkFinalizer(w), BeginPass(w)], [ApplyPlacement(p, []), EndPass(w)];
    var last := [RequestWorkDeletion(w), DeleteWork(w, {p})];
    NeverWrittenBegins(c, s, p);
    NeverWrittenPlaces(c, s.files, p);
    NeverWrittenEnds(c, s.files, p);
    AfterConcat(c, After(c, s, front), back, last);
    AfterConcat(c, s, front, back + last);
    assert front + (back + last) == NeverWritten(w, p);
  }

  lemma NeverWrittenIsStranded(c: Config, s: State, p: string)
    requires ValidConfig(c) && Initial(c, s) && c.mode(p).Flat?
    ensures var events := NeverWritten(c.workOf(p), p);
      Legal(c, s, events) && Stranded(c, After(c, s, events), p) && !CanBeDeleted(c, After(c, s, events), p)
  {
    NeverWrittenRuns(c, s, p);
    RunKeepsInv(c, s, NeverWritten(c.workOf(p), p));
    var t := After(c, s, NeverWritten(c.workOf(p), p));
    forall more | Legal(c, t, more)
      ensures p in After(c, t, more).placements
    {
      StrandedForever(c, t, more, p);
    }
  }

  lemma ThreeSteps(c: Config, s: State, a: Event, b: Event, d: Event)
    ensures After(c, s, [a, b, d]) == Step(c, Step(c, Step(c, s, a), b), d)
    ensures Enabled(c, s, a) && Enabled(c, Step(c, s, a), b) && Enabled(c, Step(c, Step(c, s, a), b), d) ==> Legal(c, s, [a, b, d])
  {
    TwoSteps(c, Step(c, s, a), b, d);
    assert [a, b, d][1..] == [b, d];
  }
}
