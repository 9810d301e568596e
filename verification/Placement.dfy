/** What a WorkPlacement does to its state store: writes with and without the `.kratix` state
    file, and the two deletions (internal/controller/workplacement_controller.go).

    A key of the store is a bucket or repository with a full path in it, so one map holds the files
    of all destinations. */
module Placement {
  import opened Wrappers
  import opened Writers

  datatype Mode = Nested | Flat   // nestedByMetadata and none

  /** The fixed facts about placements: filepath mode and base path of the target destination,
      nested directory and state file below that, the state file's key, Work, the placement that may
      keep a workload at a key, and the YAML codec of state files. */
  datatype Config = Config(
    mode: string -> Mode,
    base: string -> string,
    dir: string -> string,
    statePath: string -> string,
    stateFile: string -> string,
    workOf: string -> string,
    owner: string -> Option<string>,
    marshal: seq<string> -> string,
    unmarshal: string -> Option<seq<string>>)

  ghost predicate ValidConfig(c: Config) {
    && (forall p :: c.statePath(p) != "" && c.stateFile(p) == PathJoin(c.base(p), c.statePath(p)))
    && (forall p :: c.owner(c.stateFile(p)) == None)
    && (forall p, q :: c.stateFile(p) == c.stateFile(q) ==> p == q)
    && (forall p :: c.mode(p).Nested? ==> c.dir(p) != "" && TrimSlash(c.dir(p)) == c.dir(p))
    && (forall p, k :: c.mode(p).Nested? ==> (Inside(Root(c, p), k) <==> c.owner(k) == Some(p)))
    && (forall files :: c.unmarshal(c.marshal(files)) == Some(files))
  }

  /** Where the workloads of a placement go. */
  function Root(c: Config, p: string): string {
    if c.mode(p).Nested? then PathJoin(c.base(p), c.dir(p)) else c.base(p)
  }

  /** A placement without nested directories writes only paths of its own. */
  ghost predicate OwnWorkloads(c: Config, p: string, ws: seq<Workload>) {
    forall i :: 0 <= i < |ws| ==>
      ws[i].filepath != "" && (c.mode(p).Flat? ==> c.owner(Destination(c.base(p), ws[i])) == Some(p))
  }

  function Filenames(ws: seq<Workload>): seq<string> {
    seq(|ws|, i requires 0 <= i < |ws| => ws[i].filepath)
  }

  predicate HasFile(ws: seq<Workload>, path: string) {
    exists i :: 0 <= i < |ws| && ws[i].filepath == path
  }

  /** The old paths that no new workload uses, in the old order. */
  function Obsolete(listed: seq<string>, ws: seq<Workload>): (r: seq<string>)
    ensures forall path :: path in r <==> path in listed && !HasFile(ws, path)
  {
    if listed == [] then []
    else
      var rest := Obsolete(listed[..|listed| - 1], ws);
      var path := listed[|listed| - 1];
      if HasFile(ws, path) then rest else rest + [path]
  }

  method CleanupWorkloads(oldWorkloads: seq<string>, newWorkloads: seq<Workload>) returns (result: seq<string>)
    ensures result == Obsolete(oldWorkloads, newWorkloads)
  {
    var works := {};
    var i := 0;
    while i < |newWorkloads|
      invariant 0 <= i <= |newWorkloads|
      invariant forall path :: path in works <==> HasFile(newWorkloads[..i], path)
    {
      works := works + {newWorkloads[i].filepath};
      forall path
        ensures HasFile(newWorkloads[..i + 1], path) <==>
                HasFile(newWorkloads[..i], path) || newWorkloads[i].filepath == path
      {
        if HasFile(newWorkloads[..i], path) {
          var j :| 0 <= j < i && newWorkloads[..i][j].filepath == path;
          assert newWorkloads[..i + 1][j].filepath == path;
        }
        assert newWorkloads[..i + 1][i] == newWorkloads[i];
      }
      i := i + 1;
    }
    assert newWorkloads[..i] == newWorkloads;
    result := [];
    i := 0;
    while i < |oldWorkloads|
      invariant 0 <= i <= |oldWorkloads|
      invariant result == Obsolete(oldWorkloads[..i], newWorkloads)
    {
      assert oldWorkloads[..i + 1][..i] == oldWorkloads[..i];
      if oldWorkloads[i] !in works {
        result := result + [oldWorkloads[i]];
      }
      i := i + 1;
    }
    assert oldWorkloads[..i] == oldWorkloads;
  }

  // ------------------------------------------------------------ store steps

  /** The paths in the placement's state file; a missing file lists nothing. */
  function ReadState(c: Config, files: Files, p: string): Option<seq<string>> {
    if c.stateFile(p) in files then c.unmarshal(files[c.stateFile(p)]) else Some([])
  }

  function StateWorkload(c: Config, p: string, ws: seq<Workload>): Workload {
    Workload(c.statePath(p), c.marshal(Filenames(ws)))
  }

  /** writeWorkloadsToStateStore: the state file goes first, obsolete files go with the update. */
  function Write(c: Config, files: Files, p: string, ws: seq<Workload>): Option<Files> {
    match c.mode(p)
    case Nested => Some(UpdateFiles(files, c.base(p), c.dir(p), ws, []))
    case Flat =>
      match ReadState(c, files, p)
      case None => None
      case Some(listed) => Some(UpdateFiles(files, c.base(p), "", [StateWorkload(c, p, ws)] + ws, Obsolete(listed, ws)))
  }

  /** The first deletion: workload files.  Without nested directories it needs the state file. */
  function DeleteWorkloads(c: Config, files: Files, p: string): Option<Files> {
    match c.mode(p)
    case Nested => Some(UpdateFiles(files, c.base(p), c.dir(p) + "/", [], []))
    case Flat =>
      if c.stateFile(p) !in files then None
      else
        match c.unmarshal(files[c.stateFile(p)])
        case None => None
        case Some(listed) => Some(UpdateFiles(files, c.base(p), "", [], listed))
  }

  /** The second deletion: the state file. */
  function DeleteState(c: Config, files: Files, p: string): Files {
    UpdateFiles(files, c.base(p), "", [], [c.statePath(p)])
  }

  // -------------------------------------------------- what the steps change

  /** Nothing outside the placement's own paths differs. */
  ghost predicate OnlyOwn(c: Config, p: string, a: Files, b: Files) {
    forall k :: c.owner(k) != Some(p) && k != c.stateFile(p) ==>
      (k in a <==> k in b) && (k in a ==> a[k] == b[k])
  }

  /** The state file, if there is one, can be read, lists own paths only and covers every own file. */
  ghost predicate StateCovers(c: Config, p: string, files: Files) {
    && (c.stateFile(p) in files ==>
          && c.unmarshal(files[c.stateFile(p)]).Some?
          && OwnPaths(c, p, c.unmarshal(files[c.stateFile(p)]).value))
    && (forall k :: k in files && c.owner(k) == Some(p) ==>
          c.stateFile(p) in files && k in Listed(c.base(p), c.unmarshal(files[c.stateFile(p)]).value))
  }

  ghost predicate OwnPaths(c: Config, p: string, paths: seq<string>) {
    forall i :: 0 <= i < |paths| ==> paths[i] != "" && c.owner(PathJoin(c.base(p), paths[i])) == Some(p)
  }

  ghost predicate NoOwnFiles(c: Config, p: string, files: Files) {
    forall k :: k in files ==> c.owner(k) != Some(p)
  }

  /** The own files are exactly the workloads, each with the content of its last entry. */
  ghost predicate Mirrors(c: Config, p: string, ws: seq<Workload>, files: Files) {
    forall k :: c.owner(k) == Some(p) ==>
      (k in files <==> k in Image(c, p, ws)) && (k in files ==> files[k] == Image(c, p, ws)[k])
  }

  /** The files a list of workloads stands for. */
  function Image(c: Config, p: string, ws: seq<Workload>): Files {
    WriteAll(map[], Root(c, p), ws)
  }

  lemma OwnTargets(c: Config, p: string, ws: seq<Workload>, k: string)
    requires ValidConfig(c) && OwnWorkloads(c, p, ws) && k in Targets(Root(c, p), ws)
    ensures c.owner(k) == Some(p)
  {
    if c.mode(p).Nested? {
      TargetsInside(Root(c, p), ws, k);
    }
  }

  /** Every own file is a workload's, every workload has its file, and its content is that of the last
      workload for the path. */
  lemma MirrorsIff(c: Config, p: string, ws: seq<Workload>, files: Files)
    requires ValidConfig(c) && OwnWorkloads(c, p, ws)
    ensures Mirrors(c, p, ws, files) <==>
      && (forall k :: k in files && c.owner(k) == Some(p) ==> k in Targets(Root(c, p), ws))
      && (forall i :: 0 <= i < |ws| ==> Destination(Root(c, p), ws[i]) in files)
      && (forall i: nat :: IsLastFor(Root(c, p), ws, i) && Destination(Root(c, p), ws[i]) in files ==>
            files[Destination(Root(c, p), ws[i])] == ws[i].content)
  {
    var root := Root(c, p);
    forall k
      ensures k in Image(c, p, ws) <==> k in Targets(root, ws)
      ensures k in Targets(root, ws) ==> c.owner(k) == Some(p)
    {
      WrittenAt(c, p, ws, map[], k);
      if k in Targets(root, ws) {
        OwnTargets(c, p, ws, k);
      }
    }
    forall i | 0 <= i < |ws|
      ensures Destination(root, ws[i]) in Targets(root, ws)
      ensures IsLastFor(root, ws, i) ==> Image(c, p, ws)[Destination(root, ws[i])] == ws[i].content
    {
      if IsLastFor(root, ws, i) {
        LastContentWins(map[], root, ws, i);
      }
    }
    forall k | k in Targets(root, ws)
      ensures exists i: nat :: IsLastFor(root, ws, i) && Destination(root, ws[i]) == k
    {
      var i := SomeIsLast(root, ws, k);
    }
  }

  /** At an own key a written store has the workload's file, or what was there before. */
  lemma WrittenAt(c: Config, p: string, ws: seq<Workload>, left: Files, k: string)
    ensures var r, root := WriteAll(left, Root(c, p), ws), Root(c, p);
      && (k in r <==> k in left || k in Targets(root, ws))
      && (k in Image(c, p, ws) <==> k in Targets(root, ws))
      && (k in Targets(root, ws) ==> r[k] == Image(c, p, ws)[k])
      && (k !in Targets(root, ws) && k in left ==> r[k] == left[k])
  {
    WriteAllLooksUp(left, Root(c, p), ws, k);
    WriteAllLooksUp(map[], Root(c, p), ws, k);
    if k in Targets(Root(c, p), ws) {
      WriteAllAgrees(left, map[], Root(c, p), ws, k);
    }
  }

  lemma WriteNested(c: Config, p: string, ws: seq<Workload>, files: Files)
    requires ValidConfig(c) && OwnWorkloads(c, p, ws) && c.mode(p).Nested?
    ensures OnlyOwn(c, p, files, Write(c, files, p, ws).value)
    ensures Mirrors(c, p, ws, Write(c, files, p, ws).value)
    ensures c.stateFile(p) in files <==> c.stateFile(p) in Write(c, files, p, ws).value
    ensures c.stateFile(p) in files ==> Write(c, files, p, ws).value[c.stateFile(p)] == files[c.stateFile(p)]
  {
    var root := Root(c, p);
    var left := files - (set k | k in files && Inside(root, k));
    var r := Write(c, files, p, ws).value;
    assert r == WriteAll(left, root, ws);
    forall k
      ensures c.owner(k) != Some(p) ==> (k in files <==> k in r) && (k in files ==> files[k] == r[k])
      ensures c.owner(k) == Some(p) ==>
        (k in r <==> k in Image(c, p, ws)) && (k in r ==> r[k] == Image(c, p, ws)[k])
    {
      WrittenAt(c, p, ws, left, k);
      if k in Targets(root, ws) {
        OwnTargets(c, p, ws, k);
      }
    }
  }

  lemma {:induction false} WriteAllAppend(files: Files, root: string, w: Workload, ws: seq<Workload>)
    ensures WriteAll(files, root, [w] + ws) == WriteAll(files[Destination(root, w) := w.content], root, ws)
  {
    if ws == [] {
      assert [w] + ws == [w];
      assert [w][..0] == [];
    } else {
      var all := [w] + ws;
      assert all[..|all| - 1] == [w] + ws[..|ws| - 1] && all[|all| - 1] == ws[|ws| - 1];
      WriteAllAppend(files, root, w, ws[..|ws| - 1]);
    }
  }

  // --------------------------------------------- paths in the state file

  lemma KeyIsInjective(base: string, f: string, g: string)
    requires f != "" && g != "" && PathJoin(base, f) == PathJoin(base, g)
    ensures f == g
  {
    if base != "" {
      assert f == PathJoin(base, f)[|base| + 1..] && g == PathJoin(base, g)[|base| + 1..];
    }
  }

  lemma FilenamesAreTargets(base: string, ws: seq<Workload>)
    ensures Listed(base, Filenames(ws)) == Targets(base, ws)
  {
    assert forall i :: 0 <= i < |ws| ==> PathJoin(base, Filenames(ws)[i]) == Destination(base, ws[i]);
  }

  predicate NonEmpty(ws: seq<Workload>) {
    forall i :: 0 <= i < |ws| ==> ws[i].filepath != ""
  }

  /** The obsolete keys are the listed ones that no workload goes to. */
  lemma ObsoleteKeys(base: string, listed: seq<string>, ws: seq<Workload>, k: string)
    requires NonEmpty(ws) && forall i :: 0 <= i < |listed| ==> listed[i] != ""
    ensures k in Listed(base, Obsolete(listed, ws)) <==> k in Listed(base, listed) && k !in Targets(base, ws)
  {
    var stale := Obsolete(listed, ws);
    if k in Listed(base, stale) {
      var i :| 0 <= i < |stale| && PathJoin(base, stale[i]) == k;
      assert stale[i] in stale;
      var j :| 0 <= j < |listed| && listed[j] == stale[i];
      assert PathJoin(base, listed[j]) == k;
      forall t | 0 <= t < |ws|
        ensures Destination(base, ws[t]) != k
      {
        if Destination(base, ws[t]) == k {
          KeyIsInjective(base, ws[t].filepath, stale[i]);
          assert false;
        }
      }
    }
    if k in Listed(base, listed) && k !in Targets(base, ws) {
      var j :| 0 <= j < |listed| && PathJoin(base, listed[j]) == k;
      forall t | 0 <= t < |ws|
        ensures ws[t].filepath != listed[j]
      {
        assert Destination(base, ws[t]) in Targets(base, ws);
      }
      assert listed[j] in stale;
      var i :| 0 <= i < |stale| && stale[i] == listed[j];
      assert PathJoin(base, stale[i]) == k;
    }
  }

  lemma {:induction false} AllUsed(listed: seq<string>, ws: seq<Workload>)
    requires forall path :: path in listed ==> HasFile(ws, path)
    ensures Obsolete(listed, ws) == []
  {
    if listed != [] {
      AllUsed(listed[..|listed| - 1], ws);
    }
  }

  lemma NothingObsolete(ws: seq<Workload>)
    ensures Obsolete(Filenames(ws), ws) == []
  {
    forall path | path in Filenames(ws)
      ensures HasFile(ws, path)
    {
      var i :| 0 <= i < |ws| && Filenames(ws)[i] == path;
      assert ws[i].filepath == path;
    }
    AllUsed(Filenames(ws), ws);
  }

  /** The state file is nobody's workload. */
  lemma StateIsNoTarget(c: Config, p: string, ws: seq<Workload>)
    requires ValidConfig(c) && OwnWorkloads(c, p, ws) && c.mode(p).Flat?
    ensures c.stateFile(p) !in Targets(c.base(p), ws)
  {
    if c.stateFile(p) in Targets(c.base(p), ws) {
      OwnTargets(c, p, ws, c.stateFile(p));
    }
  }

  /** What a write without nested directories does, key by key. */
  lemma FlatShape(c: Config, p: string, ws: seq<Workload>, files: Files, k: string)
    requires ValidConfig(c) && OwnWorkloads(c, p, ws) && c.mode(p).Flat? && ReadState(c, files, p).Some?
    requires forall i :: 0 <= i < |ReadState(c, files, p).value| ==> ReadState(c, files, p).value[i] != ""
    ensures var r := Write(c, files, p, ws).value;
      var listed := ReadState(c, files, p).value;
      && (k == c.stateFile(p) ==> k in r && r[k] == c.marshal(Filenames(ws)))
      && (k != c.stateFile(p) ==>
            && (k in r <==> k in Targets(c.base(p), ws) || (k in files && k !in Listed(c.base(p), listed)))
            && (k in Targets(c.base(p), ws) ==> k in Image(c, p, ws) && r[k] == Image(c, p, ws)[k])
            && (k in r && k !in Targets(c.base(p), ws) ==> r[k] == files[k]))
  {
    var listed := ReadState(c, files, p).value;
    var gone, state := Listed(c.base(p), Obsolete(listed, ws)), StateWorkload(c, p, ws);
    var left := (files - gone)[c.stateFile(p) := state.content];
    WriteAllAppend(files - gone, c.base(p), state, ws);
    assert TrimSlash("") == "" && PathJoin(c.base(p), "") == c.base(p);
    assert Write(c, files, p, ws).value == WriteAll(left, c.base(p), ws);
    WrittenAt(c, p, ws, left, k);
    ObsoleteKeys(c.base(p), listed, ws, k);
    StateIsNoTarget(c, p, ws);
  }

  /** A write without nested directories, from any store whose state file covers the placement's
      files: afterwards the own files are exactly the workloads and the state file lists exactly
      their paths. */
  lemma WriteFlat(c: Config, p: string, ws: seq<Workload>, files: Files)
    requires ValidConfig(c) && OwnWorkloads(c, p, ws) && c.mode(p).Flat? && StateCovers(c, p, files)
    ensures var r := Write(c, files, p, ws);
      && r.Some?
      && OnlyOwn(c, p, files, r.value)
      && Mirrors(c, p, ws, r.value)
      && c.stateFile(p) in r.value && c.unmarshal(r.value[c.stateFile(p)]) == Some(Filenames(ws))
  {
    var r := Write(c, files, p, ws).value;
    forall k
      ensures k != c.stateFile(p) && c.owner(k) != Some(p) ==> (k in files <==> k in r) && (k in files ==> files[k] == r[k])
      ensures c.owner(k) == Some(p) ==>
        (k in r <==> k in Image(c, p, ws)) && (k in r ==> r[k] == Image(c, p, ws)[k])
    {
      FlatShape(c, p, ws, files, k);
      WrittenAt(c, p, ws, map[], k);
      if k in Targets(c.base(p), ws) {
        OwnTargets(c, p, ws, k);
      }
    }
    FlatShape(c, p, ws, files, c.stateFile(p));
  }

  lemma OwnFilenames(c: Config, p: string, ws: seq<Workload>)
    requires OwnWorkloads(c, p, ws) && c.mode(p).Flat?
    ensures OwnPaths(c, p, Filenames(ws))
  {
    assert forall i :: 0 <= i < |ws| ==> PathJoin(c.base(p), Filenames(ws)[i]) == Destination(c.base(p), ws[i]);
  }

  /** A store that mirrors the workloads its state file lists is covered by it. */
  lemma MirrorsCovers(c: Config, p: string, ws: seq<Workload>, files: Files)
    requires ValidConfig(c) && OwnWorkloads(c, p, ws) && c.mode(p).Flat? && Mirrors(c, p, ws, files)
    requires c.stateFile(p) in files && c.unmarshal(files[c.stateFile(p)]) == Some(Filenames(ws))
    ensures StateCovers(c, p, files)
  {
    OwnFilenames(c, p, ws);
    FilenamesAreTargets(c.base(p), ws);
    forall k | k in files && c.owner(k) == Some(p)
      ensures k in Targets(c.base(p), ws)
    {
      WrittenAt(c, p, ws, map[], k);
    }
  }

  /** Both modes at once. */
  lemma WriteEffect(c: Config, p: string, ws: seq<Workload>, files: Files)
    requires ValidConfig(c) && OwnWorkloads(c, p, ws) && (c.mode(p).Flat? ==> StateCovers(c, p, files))
    ensures var r := Write(c, files, p, ws);
      && r.Some?
      && OnlyOwn(c, p, files, r.value)
      && Mirrors(c, p, ws, r.value)
      && (c.mode(p).Flat? ==> StateCovers(c, p, r.value) && c.stateFile(p) in r.value)
  {
    if c.mode(p).Nested? {
      WriteNested(c, p, ws, files);
    } else {
      WriteFlat(c, p, ws, files);
      MirrorsCovers(c, p, ws, Write(c, files, p, ws).value);
    }
  }

  lemma DeleteWorkloadsEffect(c: Config, p: string, files: Files)
    requires ValidConfig(c) && (c.mode(p).Flat? ==> StateCovers(c, p, files))
    ensures var r := DeleteWorkloads(c, files, p);
      && (r.Some? <==> c.mode(p).Nested? || c.stateFile(p) in files)
      && (r.Some? ==>
            && OnlyOwn(c, p, files, r.value)
            && NoOwnFiles(c, p, r.value)
            && (c.stateFile(p) in files <==> c.stateFile(p) in r.value)
            && (c.stateFile(p) in files ==> r.value[c.stateFile(p)] == files[c.stateFile(p)]))
  {
    var r := DeleteWorkloads(c, files, p);
    if c.mode(p).Nested? {
      assert TrimSlash(c.dir(p) + "/") == c.dir(p);
      assert r.value == files - (set k | k in files && Inside(Root(c, p), k));
    } else if c.stateFile(p) in files {
      var listed := c.unmarshal(files[c.stateFile(p)]).value;
      assert r.value == files - Listed(c.base(p), listed);
      forall k | k in Listed(c.base(p), listed)
        ensures c.owner(k) == Some(p)
      {
        var i :| 0 <= i < |listed| && PathJoin(c.base(p), listed[i]) == k;
      }
    }
  }

  lemma DeleteStateEffect(c: Config, p: string, files: Files)
    requires ValidConfig(c)
    ensures DeleteState(c, files, p) == files - {c.stateFile(p)}
  {
    assert Listed(c.base(p), [c.statePath(p)]) == {c.stateFile(p)} by {
      assert PathJoin(c.base(p), [c.statePath(p)][0]) == c.stateFile(p);
    }
  }

  // ------------------------------------------------------------ on Git

  /** The write as the Git writer performs it. */
  function GitWrite(c: Config, files: Files, p: string, ws: seq<Workload>): Option<Files> {
    match c.mode(p)
    case Nested => GitUpdate(files, c.base(p), c.dir(p), ws, [])
    case Flat =>
      match ReadState(c, files, p)
      case None => None
      case Some(listed) => GitUpdate(files, c.base(p), "", [StateWorkload(c, p, ws)] + ws, Obsolete(listed, ws))
  }

  function GitDeleteWorkloads(c: Config, files: Files, p: string): Option<Files> {
    match c.mode(p)
    case Nested => GitUpdate(files, c.base(p), c.dir(p) + "/", [], [])
    case Flat =>
      if c.stateFile(p) !in files then None
      else
        match c.unmarshal(files[c.stateFile(p)])
        case None => None
        case Some(listed) => GitUpdate(files, c.base(p), "", [], listed)
  }

  /** Every file at or below one of the paths is the placement's own. */
  ghost predicate OwnBelow(c: Config, p: string, files: Files, paths: seq<string>) {
    forall k :: k in files && BelowListed(c.base(p), paths, k) ==> c.owner(k) == Some(p)
  }

  lemma RemovalKeepsTree(files: Files, gone: set<string>)
    requires IsTree(files)
    ensures IsTree(files - gone)
  {
  }

  lemma ListedIsOwn(c: Config, p: string, paths: seq<string>, k: string)
    requires OwnPaths(c, p, paths) && k in Listed(c.base(p), paths)
    ensures c.owner(k) == Some(p)
  {
    var i :| 0 <= i < |paths| && PathJoin(c.base(p), paths[i]) == k;
  }

  /** On Git the first deletion of a placement without nested directories is the intended one if and
      only if no file at or below a path in its state file belongs to anything else; such files are
      lost. */
  lemma GitDeletionIff(c: Config, p: string, files: Files)
    requires ValidConfig(c) && c.mode(p).Flat? && StateCovers(c, p, files) && c.stateFile(p) in files && IsTree(files)
    ensures var listed := c.unmarshal(files[c.stateFile(p)]).value;
      var git := GitDeleteWorkloads(c, files, p);
      && git.Some?
      && (git == DeleteWorkloads(c, files, p) <==> OwnBelow(c, p, files, listed))
      && (forall k :: k in git.value <==> k in files && !BelowListed(c.base(p), listed, k))
  {
    var listed := c.unmarshal(files[c.stateFile(p)]).value;
    var gone := GitDoomed(files, c.base(p), "", listed);
    assert TrimSlash("") == "" && PathJoin(c.base(p), "") == c.base(p);
    RemovalKeepsTree(files, gone);
    RemovalKeepsTree(files, Listed(c.base(p), listed));
    assert Targets(c.base(p), []) == {};
    GitRefinesIff(files, c.base(p), "", [], listed);
    if OwnBelow(c, p, files, listed) {
      assert NoListedDirectory(files, c.base(p), [], listed);
    }
    if NoListedDirectory(files, c.base(p), [], listed) {
      forall k | k in files && BelowListed(c.base(p), listed, k)
        ensures c.owner(k) == Some(p)
      {
        ListedIsOwn(c, p, listed, k);
      }
    }
  }

  /** The same for a write, where also a tree must be able to hold the result. */
  lemma GitWriteIff(c: Config, p: string, ws: seq<Workload>, files: Files)
    requires ValidConfig(c) && OwnWorkloads(c, p, ws) && c.mode(p).Flat? && StateCovers(c, p, files)
    ensures var stale := Obsolete(ReadState(c, files, p).value, ws);
      GitWrite(c, files, p, ws) == Write(c, files, p, ws) <==>
        && IsTree(Write(c, files, p, ws).value)
        && forall k :: k in files && BelowListed(c.base(p), stale, k) ==> c.owner(k) == Some(p) || k == c.stateFile(p)
  {
    var listed := ReadState(c, files, p).value;
    var stale, creates := Obsolete(listed, ws), [StateWorkload(c, p, ws)] + ws;
    GitRefinesIff(files, c.base(p), "", creates, stale);
    forall k | k in files
      ensures k in Listed(c.base(p), stale) || k in Targets(c.base(p), creates) <==> c.owner(k) == Some(p) || k == c.stateFile(p)
    {
      WrittenOrStale(c, p, ws, files, k);
    }
  }

  /** The files a write accounts for are the own ones and the state file. */
  lemma WrittenOrStale(c: Config, p: string, ws: seq<Workload>, files: Files, k: string)
    requires ValidConfig(c) && OwnWorkloads(c, p, ws) && c.mode(p).Flat? && StateCovers(c, p, files) && k in files
    ensures k in Listed(c.base(p), Obsolete(ReadState(c, files, p).value, ws)) || k in Targets(c.base(p), [StateWorkload(c, p, ws)] + ws)
      <==> c.owner(k) == Some(p) || k == c.stateFile(p)
  {
    var listed, creates := ReadState(c, files, p).value, [StateWorkload(c, p, ws)] + ws;
    ObsoleteKeys(c.base(p), listed, ws, k);
    StateGoesFirst(c, p, ws);
    if k in Listed(c.base(p), listed) {
      ListedIsOwn(c, p, listed, k);
    }
    if k in Targets(c.base(p), ws) {
      OwnTargets(c, p, ws, k);
    }
  }

  lemma StateGoesFirst(c: Config, p: string, ws: seq<Workload>)
    requires ValidConfig(c)
    ensures Targets(c.base(p), [StateWorkload(c, p, ws)] + ws) == {c.stateFile(p)} + Targets(c.base(p), ws)
  {
    var creates := [StateWorkload(c, p, ws)] + ws;
    assert Destination(c.base(p), creates[0]) == c.stateFile(p);
    assert forall i :: 0 <= i < |ws| ==> creates[i + 1] == ws[i];
    forall k | k in Targets(c.base(p), ws)
      ensures k in Targets(c.base(p), creates)
    {
      var i :| 0 <= i < |ws| && Destination(c.base(p), ws[i]) == k;
      assert Destination(c.base(p), creates[i + 1]) == k;
    }
    assert forall i :: 0 < i < |creates| ==> creates[i] == ws[i - 1];
  }

  /** What lies below a placement's path is the placement's. */
  ghost predicate Apart(c: Config) {
    forall p, k, l :: c.owner(k) == Some(p) && k + "/" <= l ==> c.owner(l) == Some(p)
  }

  lemma BelowOwnIsOwn(c: Config, p: string, paths: seq<string>, k: string)
    requires Apart(c) && OwnPaths(c, p, paths) && BelowListed(c.base(p), paths, k)
    ensures c.owner(k) == Some(p)
  {
    var i :| 0 <= i < |paths| && Inside(PathJoin(c.base(p), paths[i]), k);
  }

  /** With paths kept apart like that, both store steps on Git are the intended ones, except that a
      write no tree can hold is refused. */
  lemma ApartSuitsGit(c: Config, p: string, ws: seq<Workload>, files: Files)
    requires ValidConfig(c) && Apart(c) && OwnWorkloads(c, p, ws) && c.mode(p).Flat? && StateCovers(c, p, files) && IsTree(files)
    ensures IsTree(Write(c, files, p, ws).value) ==> GitWrite(c, files, p, ws) == Write(c, files, p, ws)
    ensures c.stateFile(p) in files ==> GitDeleteWorkloads(c, files, p) == DeleteWorkloads(c, files, p)
  {
    var listed := ReadState(c, files, p).value;
    var stale := Obsolete(listed, ws);
    GitWriteIff(c, p, ws, files);
    forall k | k in files && BelowListed(c.base(p), stale, k)
      ensures c.owner(k) == Some(p)
    {
      var i :| 0 <= i < |stale| && Inside(PathJoin(c.base(p), stale[i]), k);
      assert stale[i] in stale;
      var j :| 0 <= j < |listed| && listed[j] == stale[i];
      assert Inside(PathJoin(c.base(p), listed[j]), k);
      BelowOwnIsOwn(c, p, listed, k);
    }
    if c.stateFile(p) in files {
      GitDeletionIff(c, p, files);
      forall k | k in files && BelowListed(c.base(p), listed, k)
        ensures c.owner(k) == Some(p)
      {
        BelowOwnIsOwn(c, p, listed, k);
      }
    }
  }

  /** For instance: a placement erased its file but kept its finalizer, another one then wrote below
      that path; on Git the retry takes the other one's file. */
  lemma GitRetryTakesForeign(c: Config, p: string, q: string, f: string, g: string, content: string)
    requires ValidConfig(c) && c.mode(p).Flat? && p != q && f != ""
    requires c.owner(PathJoin(c.base(p), f)) == Some(p) && c.owner(PathJoin(c.base(p), f) + "/" + g) == Some(q)
    requires !(c.stateFile(p) + "/" <= PathJoin(c.base(p), f) + "/" + g) && !(PathJoin(c.base(p), f) + "/" + g + "/" <= c.stateFile(p))
    ensures var l := PathJoin(c.base(p), f) + "/" + g;
      var files := map[c.stateFile(p) := c.marshal([f]), l := content];
      && IsTree(files) && StateCovers(c, p, files)
      && DeleteWorkloads(c, files, p).Some? && l in DeleteWorkloads(c, files, p).value
      && GitDeleteWorkloads(c, files, p).Some? && l !in GitDeleteWorkloads(c, files, p).value
  {
    var k := PathJoin(c.base(p), f);
    var l := k + "/" + g;
    var files := map[c.stateFile(p) := c.marshal([f]), l := content];
    assert PathJoin(c.base(p), [f][0]) == k && Inside(k, l);
    assert BelowListed(c.base(p), [f], l);
    DeleteWorkloadsEffect(c, p, files);
    GitDeletionIff(c, p, files);
  }

  // --------------------------------------------------- no stale files, ever

  /** Own writes, and foreign changes to other paths, in any order. */
  datatype StoreEvent = OwnWrite(ws: seq<Workload>) | ForeignChange(files: Files)

  ghost predicate LegalEvents(c: Config, p: string, files: Files, events: seq<StoreEvent>)
    decreases |events|
  {
    events == [] ||
    match events[0]
    case OwnWrite(ws) =>
      OwnWorkloads(c, p, ws) && Write(c, files, p, ws).Some? && LegalEvents(c, p, Write(c, files, p, ws).value, events[1..])
    case ForeignChange(changed) =>
      Untouched(c, p, files, changed) && LegalEvents(c, p, changed, events[1..])
  }

  ghost predicate Untouched(c: Config, p: string, a: Files, b: Files) {
    forall k :: c.owner(k) == Some(p) || k == c.stateFile(p) ==>
      (k in a <==> k in b) && (k in a ==> a[k] == b[k])
  }

  function AfterEvents(c: Config, p: string, files: Files, events: seq<StoreEvent>): Files
    decreases |events|
  {
    if events == [] then files
    else match events[0]
      case OwnWrite(ws) =>
        AfterEvents(c, p, match Write(c, files, p, ws) case Some(r) => r case None => files, events[1..])
      case ForeignChange(changed) => AfterEvents(c, p, changed, events[1..])
  }

  /** The workloads of the last own write, if any. */
  function LastWritten(events: seq<StoreEvent>): Option<seq<Workload>> {
    if events == [] then None
    else if events[|events| - 1].OwnWrite? then Some(events[|events| - 1].ws)
    else LastWritten(events[..|events| - 1])
  }

  ghost predicate UpToDate(c: Config, p: string, current: Option<seq<Workload>>, files: Files) {
    match current
    case None => NoOwnFiles(c, p, files) && c.stateFile(p) !in files
    case Some(ws) =>
      && Mirrors(c, p, ws, files)
      && c.stateFile(p) in files && c.unmarshal(files[c.stateFile(p)]) == Some(Filenames(ws))
  }

  lemma UpToDateCovers(c: Config, p: string, current: Option<seq<Workload>>, files: Files)
    requires ValidConfig(c) && c.mode(p).Flat? && UpToDate(c, p, current, files)
    requires current.Some? ==> OwnWorkloads(c, p, current.value)
    ensures StateCovers(c, p, files)
  {
    if current.Some? {
      MirrorsCovers(c, p, current.value, files);
    }
  }

  lemma {:induction false} EventsKeepUpToDate(c: Config, p: string, current: Option<seq<Workload>>, files: Files, events: seq<StoreEvent>)
    requires ValidConfig(c) && c.mode(p).Flat? && UpToDate(c, p, current, files)
    requires current.Some? ==> OwnWorkloads(c, p, current.value)
    requires LegalEvents(c, p, files, events)
    ensures var last := LastWritten(events);
      UpToDate(c, p, if last.Some? then last else current, AfterEvents(c, p, files, events))
    decreases |events|
  {
    if events != [] {
      var rest := events[1..];
      LastOfTail(events);
      match events[0]
      case OwnWrite(ws) =>
        UpToDateCovers(c, p, current, files);
        WriteFlat(c, p, ws, files);
        EventsKeepUpToDate(c, p, Some(ws), Write(c, files, p, ws).value, rest);
      case ForeignChange(changed) =>
        EventsKeepUpToDate(c, p, current, changed, rest);
    }
  }

  lemma {:induction false} LastOfTail(events: seq<StoreEvent>)
    requires events != []
    ensures LastWritten(events) ==
      if LastWritten(events[1..]).Some? then LastWritten(events[1..])
      else if events[0].OwnWrite? then Some(events[0].ws) else None
  {
    if |events| > 1 && !events[|events| - 1].OwnWrite? {
      LastOfTail(events[..|events| - 1]);
      assert events[..|events| - 1][1..] == events[1..][..|events[1..]| - 1];
    }
  }

  /** After any sequence of writes with changing workload lists, interleaved with changes to other
      paths, the own files are exactly the last workloads and the state file lists their paths. */
  lemma NoStaleFiles(c: Config, p: string, files: Files, events: seq<StoreEvent>, ws: seq<Workload>)
    requires ValidConfig(c) && c.mode(p).Flat?
    requires NoOwnFiles(c, p, files) && c.stateFile(p) !in files
    requires LegalEvents(c, p, files, events) && LastWritten(events) == Some(ws)
    ensures var after := AfterEvents(c, p, files, events);
      && Mirrors(c, p, ws, after)
      && c.stateFile(p) in after && c.unmarshal(after[c.stateFile(p)]) == Some(Filenames(ws))
  {
    EventsKeepUpToDate(c, p, None, files, events);
  }

  // -------------------------------------------------- interrupted on S3

  /** Where an S3 write stops: with `written` of its uploads done, or with all of them done and the
      objects in `stuck` not removed. */
  datatype Stop = AtUpload(written: nat) | AtRemoval(stuck: set<string>)

  /** The store after an S3 write without nested directories stopped. */
  function Interrupted(c: Config, files: Files, p: string, ws: seq<Workload>, stop: Stop): Files
    requires stop.AtUpload? ==> stop.written <= |ws|
    requires ReadState(c, files, p).Some?
  {
    var creates := [StateWorkload(c, p, ws)] + ws;
    match stop
    case AtUpload(written) => WriteAll(files, c.base(p), creates[..written])
    case AtRemoval(stuck) => S3Interrupted(files, c.base(p), "", creates, Obsolete(ReadState(c, files, p).value, ws), stuck)
  }

  /** Once the state file is the new one, a write removes nothing: it cleans up exactly when every
      own file in the store is one of the workloads. */
  lemma FreshStateRemovesNothing(c: Config, p: string, ws: seq<Workload>, files: Files)
    requires ValidConfig(c) && OwnWorkloads(c, p, ws) && c.mode(p).Flat?
    requires c.stateFile(p) in files && files[c.stateFile(p)] == c.marshal(Filenames(ws))
    ensures var r := Write(c, files, p, ws);
      r.Some? && (Mirrors(c, p, ws, r.value) <==>
        forall k :: k in files && c.owner(k) == Some(p) ==> k in Targets(c.base(p), ws))
  {
    FreshStateShape(c, p, ws, files);
    var r := WriteAll(files, c.base(p), ws);
    forall k | c.owner(k) == Some(p)
      ensures OverlaidAt(c, p, ws, files, r, k)
    {
      WrittenAt(c, p, ws, files, k);
    }
    OverlayMirrorsIff(c, p, ws, files, r);
  }

  lemma FreshStateShape(c: Config, p: string, ws: seq<Workload>, files: Files)
    requires ValidConfig(c) && c.mode(p).Flat?
    requires c.stateFile(p) in files && files[c.stateFile(p)] == c.marshal(Filenames(ws))
    ensures Write(c, files, p, ws) == Some(WriteAll(files, c.base(p), ws))
  {
    var state := StateWorkload(c, p, ws);
    NothingObsolete(ws);
    assert Listed(c.base(p), []) == {} && files - {} == files;
    assert files[c.stateFile(p) := state.content] == files;
    WriteAllAppend(files, c.base(p), state, ws);
    assert TrimSlash("") == "" && PathJoin(c.base(p), "") == c.base(p);
  }

  /** At `k` the store has the workload's file, or else whatever was there at first. */
  ghost predicate OverlaidAt(c: Config, p: string, ws: seq<Workload>, files: Files, r: Files, k: string) {
    && (k in r <==> k in files || k in Targets(c.base(p), ws))
    && (k in Image(c, p, ws) <==> k in Targets(c.base(p), ws))
    && (k in Targets(c.base(p), ws) ==> r[k] == Image(c, p, ws)[k])
  }

  lemma OverlayMirrorsIff(c: Config, p: string, ws: seq<Workload>, files: Files, r: Files)
    requires forall k :: c.owner(k) == Some(p) ==> OverlaidAt(c, p, ws, files, r, k)
    ensures Mirrors(c, p, ws, r) <==> forall k :: k in files && c.owner(k) == Some(p) ==> k in Targets(c.base(p), ws)
  {
    if Mirrors(c, p, ws, r) {
      forall k | k in files && c.owner(k) == Some(p)
        ensures k in Targets(c.base(p), ws)
      {
        assert OverlaidAt(c, p, ws, files, r, k);
      }
    }
  }

  /** Uploads stopped after the state file: the old own files are all still there. */
  lemma StoppedUploadKeepsAll(c: Config, p: string, ws: seq<Workload>, files: Files, written: nat)
    requires ValidConfig(c) && OwnWorkloads(c, p, ws) && c.mode(p).Flat? && ReadState(c, files, p).Some?
    requires 0 < written <= |ws|
    ensures var x := Interrupted(c, files, p, ws, AtUpload(written));
      && c.stateFile(p) in x && x[c.stateFile(p)] == c.marshal(Filenames(ws))
      && ((forall k :: k in x && c.owner(k) == Some(p) ==> k in Targets(c.base(p), ws)) <==>
          (forall k :: k in files && c.owner(k) == Some(p) ==> k in Targets(c.base(p), ws)))
  {
    var state, front := StateWorkload(c, p, ws), ws[..written - 1];
    var x, left := Interrupted(c, files, p, ws, AtUpload(written)), files[c.stateFile(p) := state.content];
    assert ([state] + ws)[..written] == [state] + front;
    WriteAllAppend(files, c.base(p), state, front);
    StateIsNoTarget(c, p, front);
    WriteAllLooksUp(left, c.base(p), front, c.stateFile(p));
    forall k | c.owner(k) == Some(p)
      ensures k in x <==> k in files || k in Targets(c.base(p), front)
      ensures k in Targets(c.base(p), front) ==> k in Targets(c.base(p), ws)
    {
      WriteAllLooksUp(left, c.base(p), front, k);
      assert forall i :: 0 <= i < |front| ==> front[i] == ws[i];
    }
  }

  /** Removals refused: of the obsolete own files exactly the stuck ones are still there. */
  lemma StoppedRemovalKeepsStuck(c: Config, p: string, ws: seq<Workload>, files: Files, stuck: set<string>)
    requires ValidConfig(c) && OwnWorkloads(c, p, ws) && c.mode(p).Flat? && StateCovers(c, p, files)
    ensures var x := Interrupted(c, files, p, ws, AtRemoval(stuck));
      && c.stateFile(p) in x && x[c.stateFile(p)] == c.marshal(Filenames(ws))
      && ((forall k :: k in x && c.owner(k) == Some(p) ==> k in Targets(c.base(p), ws)) <==>
          (forall k :: k in files && c.owner(k) == Some(p) && k in stuck ==> k in Targets(c.base(p), ws)))
  {
    var listed := ReadState(c, files, p).value;
    var state, x := StateWorkload(c, p, ws), Interrupted(c, files, p, ws, AtRemoval(stuck));
    var left := files[c.stateFile(p) := state.content];
    var creates, stale := [state] + ws, Obsolete(listed, ws);
    WriteAllAppend(files, c.base(p), state, ws);
    assert TrimSlash("") == "" && PathJoin(c.base(p), "") == c.base(p);
    assert x == WriteAll(left, c.base(p), ws) - (Listed(c.base(p), stale) * files.Keys - Targets(c.base(p), creates) - stuck);
    StateIsNoTarget(c, p, ws);
    WriteAllLooksUp(left, c.base(p), ws, c.stateFile(p));
    assert Destination(c.base(p), creates[0]) == c.stateFile(p);
    forall k | c.owner(k) == Some(p) && k !in Targets(c.base(p), ws)
      ensures k in x <==> k in files && k in stuck
    {
      WriteAllLooksUp(left, c.base(p), ws, k);
      ObsoleteKeys(c.base(p), listed, ws, k);
      assert forall i :: 0 < i < |creates| ==> creates[i] == ws[i - 1];
      assert k !in Targets(c.base(p), creates);
    }
  }

  /** The own files a stopped write leaves for the retry to find. */
  predicate LeftBehind(stop: Stop, k: string) {
    match stop
    case AtUpload(written) => written > 0
    case AtRemoval(stuck) => k in stuck
  }

  /** The state file is uploaded first, so once it is, the retry no longer knows the obsolete files.
      However the write stopped, the retry cleans up completely exactly when no obsolete own file
      was left behind. */
  lemma FlatRetryCleansIff(c: Config, p: string, ws: seq<Workload>, files: Files, stop: Stop)
    requires ValidConfig(c) && OwnWorkloads(c, p, ws) && c.mode(p).Flat? && StateCovers(c, p, files)
    requires stop.AtUpload? ==> stop.written <= |ws|
    ensures var r := Write(c, Interrupted(c, files, p, ws, stop), p, ws);
      r.Some? && (Mirrors(c, p, ws, r.value) <==>
        forall k :: k in files && c.owner(k) == Some(p) && LeftBehind(stop, k) ==> k in Targets(c.base(p), ws))
  {
    if stop == AtUpload(0) {
      assert ([StateWorkload(c, p, ws)] + ws)[..0] == [];
      WriteFlat(c, p, ws, files);
    } else {
      match stop {
        case AtUpload(written) => StoppedUploadKeepsAll(c, p, ws, files, written);
        case AtRemoval(stuck) => StoppedRemovalKeepsStuck(c, p, ws, files, stuck);
      }
      FreshStateRemovesNothing(c, p, ws, Interrupted(c, files, p, ws, stop));
    }
  }

  /** For instance: renaming the only workload, with the upload of the state file as the last thing
      that worked, or with the removal of the old file refused, leaves the old file for good. */
  lemma FlatRetryStrands(c: Config, p: string, f: string, content: string)
    requires ValidConfig(c) && c.mode(p).Flat? && f != ""
    requires c.owner(PathJoin(c.base(p), f)) == Some(p) && c.owner(PathJoin(c.base(p), f + "2")) == Some(p)
    ensures var k, ws := PathJoin(c.base(p), f), [Workload(f + "2", content)];
      var files := map[c.stateFile(p) := c.marshal([f]), k := content];
      && StateCovers(c, p, files)
      && Write(c, files, p, ws).Some? && k !in Write(c, files, p, ws).value
      && forall stop :: stop in {AtUpload(1), AtRemoval({k})} ==>
        var r := Write(c, Interrupted(c, files, p, ws, stop), p, ws); r.Some? && !Mirrors(c, p, ws, r.value)
  {
    var k, ws := PathJoin(c.base(p), f), [Workload(f + "2", content)];
    var files := map[c.stateFile(p) := c.marshal([f]), k := content];
    assert PathJoin(c.base(p), [f][0]) == k;
    assert |f + "2"| != |f|;
    assert |Destination(c.base(p), ws[0])| != |k|;
    FlatShape(c, p, ws, files, k);
    FlatRetryCleansIff(c, p, ws, files, AtUpload(1));
    FlatRetryCleansIff(c, p, ws, files, AtRemoval({k}));
    assert k in files && LeftBehind(AtUpload(1), k) && LeftBehind(AtRemoval({k}), k);
  }

  /** The store holds the file, and the state file does not list it. */
  ghost predicate Unlisted(c: Config, p: string, files: Files, k: string) {
    && k in files && c.owner(k) == Some(p) && c.stateFile(p) in files
    && c.unmarshal(files[c.stateFile(p)]).Some?
    && OwnPaths(c, p, c.unmarshal(files[c.stateFile(p)]).value)
    && k !in Listed(c.base(p), c.unmarshal(files[c.stateFile(p)]).value)
  }

  /** No write in the sequence has a workload for the path. */
  ghost predicate NeverAgain(c: Config, p: string, events: seq<StoreEvent>, k: string) {
    forall i :: 0 <= i < |events| && events[i].OwnWrite? ==> k !in Targets(c.base(p), events[i].ws)
  }

  /** A stranded file stays through every later sequence of writes that do not bring its path back,
      and survives the deletion of the placement as well. */
  lemma {:induction false} StrandedFileStays(c: Config, p: string, files: Files, events: seq<StoreEvent>, k: string)
    requires ValidConfig(c) && c.mode(p).Flat? && Unlisted(c, p, files, k)
    requires LegalEvents(c, p, files, events) && NeverAgain(c, p, events, k)
    ensures var after := AfterEvents(c, p, files, events);
      && Unlisted(c, p, after, k) && after[k] == files[k]
      && DeleteWorkloads(c, after, p).Some? && k in DeleteWorkloads(c, after, p).value
    decreases |events|
  {
    if events != [] {
      var rest := events[1..];
      assert forall i :: 0 <= i < |rest| ==> rest[i] == events[i + 1];
      match events[0] {
        case OwnWrite(ws) =>
          UnlistedThroughWrite(c, p, files, ws, k);
          StrandedFileStays(c, p, Write(c, files, p, ws).value, rest, k);
        case ForeignChange(changed) =>
          StrandedFileStays(c, p, changed, rest, k);
      }
    } else {
      assert TrimSlash("") == "" && PathJoin(c.base(p), "") == c.base(p);
    }
  }

  lemma UnlistedThroughWrite(c: Config, p: string, files: Files, ws: seq<Workload>, k: string)
    requires ValidConfig(c) && c.mode(p).Flat? && Unlisted(c, p, files, k)
    requires OwnWorkloads(c, p, ws) && k !in Targets(c.base(p), ws)
    ensures var r := Write(c, files, p, ws);
      r.Some? && Unlisted(c, p, r.value, k) && r.value[k] == files[k]
  {
    FlatShape(c, p, ws, files, k);
    FlatShape(c, p, ws, files, c.stateFile(p));
    OwnFilenames(c, p, ws);
    FilenamesAreTargets(c.base(p), ws);
  }

  /** What a stopped write leaves behind is stranded in this sense once it is retried. */
  lemma LeftBehindIsStranded(c: Config, p: string, ws: seq<Workload>, files: Files, stop: Stop, k: string)
    requires ValidConfig(c) && OwnWorkloads(c, p, ws) && c.mode(p).Flat? && StateCovers(c, p, files)
    requires stop.AtUpload? ==> stop.written <= |ws|
    requires k in files && c.owner(k) == Some(p) && LeftBehind(stop, k) && k !in Targets(c.base(p), ws)
    ensures var x := Interrupted(c, files, p, ws, stop);
      Unlisted(c, p, x, k) && x[k] == files[k]
  {
    OwnFilenames(c, p, ws);
    FilenamesAreTargets(c.base(p), ws);
    match stop {
      case AtUpload(written) => LeftByUpload(c, p, ws, files, written, k);
      case AtRemoval(stuck) => LeftByRemoval(c, p, ws, files, stuck, k);
    }
  }

  lemma LeftByUpload(c: Config, p: string, ws: seq<Workload>, files: Files, written: nat, k: string)
    requires ValidConfig(c) && OwnWorkloads(c, p, ws) && c.mode(p).Flat? && ReadState(c, files, p).Some? && 0 < written <= |ws|
    requires k in files && c.owner(k) == Some(p) && k !in Targets(c.base(p), ws)
    ensures var x := Interrupted(c, files, p, ws, AtUpload(written));
      k in x && x[k] == files[k] && c.stateFile(p) in x && x[c.stateFile(p)] == c.marshal(Filenames(ws))
  {
    var state, front := StateWorkload(c, p, ws), ws[..written - 1];
    var left := files[c.stateFile(p) := state.content];
    StoppedUploadKeepsAll(c, p, ws, files, written);
    assert ([state] + ws)[..written] == [state] + front;
    WriteAllAppend(files, c.base(p), state, front);
    assert forall i :: 0 <= i < |front| ==> front[i] == ws[i];
    assert k !in Targets(c.base(p), front);
    WriteAllLooksUp(left, c.base(p), front, k);
  }

  lemma LeftByRemoval(c: Config, p: string, ws: seq<Workload>, files: Files, stuck: set<string>, k: string)
    requires ValidConfig(c) && OwnWorkloads(c, p, ws) && c.mode(p).Flat? && StateCovers(c, p, files)
    requires k in files && c.owner(k) == Some(p) && k in stuck && k !in Targets(c.base(p), ws)
    ensures var x := Interrupted(c, files, p, ws, AtRemoval(stuck));
      k in x && x[k] == files[k] && c.stateFile(p) in x && x[c.stateFile(p)] == c.marshal(Filenames(ws))
  {
    StoppedRemovalKeepsStuck(c, p, ws, files, stuck);
    WriteAllAppend(files, c.base(p), StateWorkload(c, p, ws), ws);
    assert TrimSlash("") == "" && PathJoin(c.base(p), "") == c.base(p);
    WriteAllLooksUp(files[c.stateFile(p) := StateWorkload(c, p, ws).content], c.base(p), ws, k);
  }
}
