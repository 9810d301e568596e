/** How the work creator splits a pipeline's output tree into workload groups
    (work-creator/pipeline/work_creator.go). */
module OutputTree {

  datatype Node = File(content: string) | Dir(entries: seq<Entry>)
  datatype Entry = Entry(name: string, node: Node)

  /** A workload: path components relative to the output directory, and the content. */
  datatype OutFile = OutFile(path: seq<string>, content: string)

  /** The output directory "input" and its siblings in the shared volume, in os.ReadDir's order. */
  datatype Volume = Volume(before: seq<Entry>, tree: seq<Entry>, after: seq<Entry>)

  /** What os.ReadDir guarantees of every directory: each name once, and no "..". */
  predicate WellFormed(entries: seq<Entry>)
    decreases entries
  {
    && (forall i :: 0 <= i < |entries| ==> entries[i].name != ".." && '/' !in entries[i].name)
    && (forall i, j :: 0 <= i < j < |entries| ==> entries[i].name != entries[j].name)
    && (forall i :: 0 <= i < |entries| && entries[i].node.Dir? ==> WellFormed(entries[i].node.entries))
  }

  function WalkEntry(e: Entry, at: seq<string>, ignored: seq<string>): seq<OutFile>
    decreases e
  {
    match e.node
    case File(content) => [OutFile(at + [e.name], content)]
    case Dir(entries) => if e.name in ignored then [] else Walk(entries, at + [e.name], [])
  }

  /** getWorkloadsFromDir: depth first; directories are ignored at the root level only. */
  function Walk(entries: seq<Entry>, at: seq<string>, ignored: seq<string>): seq<OutFile>
    decreases entries
  {
    if entries == [] then []
    else Walk(entries[..|entries| - 1], at, ignored) + WalkEntry(entries[|entries| - 1], at, ignored)
  }

  method GetWorkloadsFromDir(entries: seq<Entry>, at: seq<string>, ignored: seq<string>) returns (workloads: seq<OutFile>)
    ensures workloads == Walk(entries, at, ignored)
    decreases entries
  {
    workloads := [];
    var i := 0;
    while i < |entries|
      invariant 0 <= i <= |entries|
      invariant workloads == Walk(entries[..i], at, ignored)
    {
      var e := entries[i];
      assert entries[..i + 1][..i] == entries[..i];
      match e.node {
        case Dir(sub) =>
          if e.name !in ignored {
            var more := GetWorkloadsFromDir(sub, at + [e.name], []);
            workloads := workloads + more;
          }
        case File(content) =>
          workloads := workloads + [OutFile(at + [e.name], content)];
      }
      i := i + 1;
    }
    assert entries[..i] == entries;
  }

  /** All files of the tree. */
  function AllFiles(tree: seq<Entry>): seq<OutFile> {
    Walk(tree, [], [])
  }

  // -------------------------------------------------------------- selectors

  datatype Selector = Selector(directory: string, labels: map<string, string>)

  datatype ParseError = NoSelectors(index: nat) | DuplicateEntries | SubDirectory(directory: string)

  datatype Result<+T> = Ok(value: T) | Err(error: ParseError)

  /** The check against sub-directories: filepath.Base(d) == d, as `OwnBaseIff` shows. */
  predicate IsOwnBase(directory: string) {
    '/' !in directory || directory == "/"
  }

  function TrimSlashes(s: string): string {
    if s != "" && s[|s| - 1] == '/' then TrimSlashes(s[..|s| - 1]) else s
  }

  function AfterSlash(s: string): string {
    if s == "" || s[|s| - 1] == '/' then "" else AfterSlash(s[..|s| - 1]) + [s[|s| - 1]]
  }

  /** filepath.Base: the last element without trailing slashes. */
  function Base(s: string): string {
    if s == "" then "." else if TrimSlashes(s) == "" then "/" else AfterSlash(TrimSlashes(s))
  }

  lemma {:induction false} AfterSlashIs(s: string)
    ensures '/' !in AfterSlash(s) && |AfterSlash(s)| <= |s|
    ensures '/' !in s ==> AfterSlash(s) == s
  {
    if s != "" && s[|s| - 1] != '/' {
      AfterSlashIs(s[..|s| - 1]);
    }
  }

  /** filepath.Clean never answers with the empty path. */
  lemma OwnBaseIff(directory: string)
    requires directory != ""
    ensures IsOwnBase(directory) <==> Base(directory) == directory
  {
    AfterSlashIs(TrimSlashes(directory));
    if directory == "/" {
      assert |directory| == 1 && directory[0] == '/';
      assert TrimSlashes(directory) == TrimSlashes(directory[..0]) == "";
    }
  }

  function Cleaned(config: seq<Selector>, clean: string -> string): seq<Selector> {
    seq(|config|, i requires 0 <= i < |config| => config[i].(directory := clean(config[i].directory)))
  }

  predicate Distinct(config: seq<Selector>) {
    forall i, j :: 0 <= i < j < |config| ==> config[i].directory != config[j].directory
  }

  predicate Accepted(config: seq<Selector>) {
    && (forall i :: 0 <= i < |config| ==> config[i].labels != map[])
    && Distinct(config)
    && (forall i :: 0 <= i < |config| ==> IsOwnBase(config[i].directory))
  }

  /** The checks in their order: the first entry without labels, then repetitions, then the first
      sub-directory. */
  predicate Explains(e: ParseError, entries: seq<Selector>) {
    match e
    case NoSelectors(i) => i < |entries| && entries[i].labels == map[] && forall k :: 0 <= k < i ==> entries[k].labels != map[]
    case DuplicateEntries => (forall k :: 0 <= k < |entries| ==> entries[k].labels != map[]) && !Distinct(entries)
    case SubDirectory(d) =>
      && (forall k :: 0 <= k < |entries| ==> entries[k].labels != map[]) && Distinct(entries)
      && exists i :: 0 <= i < |entries| && entries[i].directory == d && !IsOwnBase(d)
           && forall k :: 0 <= k < i ==> IsOwnBase(entries[k].directory)
  }

  /** ParseDestinationSelectors, after YAML decoding; `clean` is filepath.Clean. */
  method ParseDestinationSelectors(config: seq<Selector>, clean: string -> string) returns (r: Result<seq<Selector>>)
    ensures r.Ok? <==> Accepted(Cleaned(config, clean))
    ensures r.Ok? ==> r.value == Cleaned(config, clean)
    ensures r.Err? ==> Explains(r.error, Cleaned(config, clean))
  {
    var entries := Cleaned(config, clean);
    var i := 0;
    while i < |entries|
      invariant 0 <= i <= |entries|
      invariant forall k :: 0 <= k < i ==> entries[k].labels != map[]
    {
      if entries[i].labels == map[] {
        return Err(NoSelectors(i));
      }
      i := i + 1;
    }
    var duplicate := ContainsDuplicateScheduling(entries);
    if duplicate {
      return Err(DuplicateEntries);
    }
    i := 0;
    while i < |entries|
      invariant 0 <= i <= |entries|
      invariant forall k :: 0 <= k < i ==> IsOwnBase(entries[k].directory)
    {
      if !IsOwnBase(entries[i].directory) {
        return Err(SubDirectory(entries[i].directory));
      }
      i := i + 1;
    }
    return Ok(entries);
  }

  method ContainsDuplicateScheduling(config: seq<Selector>) returns (found: bool)
    ensures found <==> !Distinct(config)
  {
    var seen: seq<string> := [];
    var i := 0;
    while i < |config|
      invariant 0 <= i <= |config| && |seen| == i
      invariant forall k :: 0 <= k < i ==> seen[k] == config[k].directory
      invariant Distinct(config[..i])
    {
      if config[i].directory in seen {
        return true;
      }
      seen := seen + [config[i].directory];
      i := i + 1;
    }
    assert config[..i] == config;
    return false;
  }

  // --------------------------------------------------------------- grouping

  datatype Group = Group(directory: string, workloads: seq<OutFile>)

  predicate IsRoot(directory: string) {
    directory == "."
  }

  /** The directories with a selector of their own. */
  function Listed(config: seq<Selector>): seq<string> {
    if config == [] then []
    else
      var rest, d := Listed(config[..|config| - 1]), config[|config| - 1].directory;
      if IsRoot(d) then rest else rest + [d]
  }

  predicate HasDir(tree: seq<Entry>, name: string) {
    exists i :: 0 <= i < |tree| && tree[i].name == name && tree[i].node.Dir?
  }

  function SubEntries(tree: seq<Entry>, name: string): seq<Entry>
    requires HasDir(tree, name)
  {
    var e := tree[|tree| - 1];
    if e.name == name && e.node.Dir? then e.node.entries
    else SubEntries(tree[..|tree| - 1], name)
  }

  function Filter(s: seq<OutFile>, keep: OutFile -> bool): seq<OutFile> {
    if s == [] then []
    else
      var rest := Filter(s[..|s| - 1], keep);
      if keep(s[|s| - 1]) then rest + [s[|s| - 1]] else rest
  }

  predicate InDir(f: OutFile, directory: string) {
    |f.path| > 1 && f.path[0] == directory
  }

  predicate InSome(f: OutFile, directories: seq<string>) {
    |f.path| > 1 && f.path[0] in directories
  }

  /** The files below one top-level directory, as the whole tree lists them. */
  ghost function FilesUnder(tree: seq<Entry>, directory: string): seq<OutFile> {
    Filter(AllFiles(tree), f => InDir(f, directory))
  }

  ghost function Leftover(tree: seq<Entry>, directories: seq<string>): seq<OutFile> {
    Filter(AllFiles(tree), f => !InSome(f, directories))
  }

  /** "/" joined to the output directory is the output directory; ".." is the volume's root. */
  predicate Escapes(directory: string) {
    directory == "/" || directory == ".."
  }

  predicate Readable(v: Volume, directory: string) {
    Escapes(directory) || HasDir(v.tree, directory)
  }

  ghost function FilesAt(v: Volume, directory: string): seq<OutFile> {
    if directory == "/" then AllFiles(v.tree)
    else if directory == ".." then Walk(v.before, [".."], []) + AllFiles(v.tree) + Walk(v.after, [".."], [])
    else FilesUnder(v.tree, directory)
  }

  ghost function DirGroups(v: Volume, directories: seq<string>): seq<Group> {
    seq(|directories|, i requires 0 <= i < |directories| => Group(directories[i], FilesAt(v, directories[i])))
  }

  /** One group per listed directory, in order, and a default group unless it would be empty. */
  ghost function Groups(v: Volume, directories: seq<string>): seq<Group> {
    var rest := Leftover(v.tree, directories);
    DirGroups(v, directories) + if rest == [] then [] else [Group(".", rest)]
  }

  /** Execute, from the parsed selectors to the groups.  A listed directory that is missing or a
      file ends it with an error. */
  method BuildGroups(v: Volume, config: seq<Selector>) returns (ok: bool, groups: seq<Group>)
    requires WellFormed(v.tree)
    ensures ok <==> forall i :: 0 <= i < |config| && config[i].directory != "." ==> Readable(v, config[i].directory)
    ensures ok ==> groups == Groups(v, Listed(config))
  {
    var toIgnore: seq<string> := [];
    groups := [];
    var i := 0;
    while i < |config|
      invariant 0 <= i <= |config|
      invariant toIgnore == Listed(config[..i])
      invariant forall k :: 0 <= k < i && config[k].directory != "." ==> Readable(v, config[k].directory)
      invariant groups == DirGroups(v, toIgnore)
    {
      var directory := config[i].directory;
      assert config[..i + 1][..i] == config[..i];
      if !IsRoot(directory) {
        var read, workloads := ReadListed(v, directory);
        if !read {
          return false, [];
        }
        toIgnore := toIgnore + [directory];
        groups := groups + [Group(directory, workloads)];
      }
      i := i + 1;
    }
    assert config[..i] == config;
    var workloads := GetWorkloadsFromDir(v.tree, [], toIgnore);
    IgnoredIsFilter(v.tree, toIgnore);
    if |workloads| > 0 {
      groups := groups + [Group(".", workloads)];
    }
    ok := true;
  }

  /** The walk of one listed directory; paths are relative to the output directory. */
  method ReadListed(v: Volume, directory: string) returns (ok: bool, workloads: seq<OutFile>)
    requires WellFormed(v.tree)
    ensures ok <==> Readable(v, directory)
    ensures ok ==> workloads == FilesAt(v, directory)
  {
    if directory == "/" {
      workloads := GetWorkloadsFromDir(v.tree, [], []);
    } else if directory == ".." {
      var before := GetWorkloadsFromDir(v.before, [".."], []);
      var inside := GetWorkloadsFromDir(v.tree, [], []);
      var after := GetWorkloadsFromDir(v.after, [".."], []);
      workloads := before + inside + after;
    } else if HasDir(v.tree, directory) {
      workloads := GetWorkloadsFromDir(SubEntries(v.tree, directory), [directory], []);
      SubtreeIsFilter(v.tree, directory);
    } else {
      return false, [];
    }
    ok := true;
  }

  // -------------------------------------------------------- files by path

  /** Following `path` down from these entries ends at a file with this content. */
  ghost predicate HasFile(entries: seq<Entry>, path: seq<string>, content: string)
    decreases |path|, 1
  {
    exists i :: 0 <= i < |entries| && EntryHas(entries[i], path, content)
  }

  ghost predicate EntryHas(e: Entry, path: seq<string>, content: string)
    decreases |path|, 0
  {
    && path != [] && path[0] == e.name
    && match e.node
      case File(text) => |path| == 1 && text == content
      case Dir(entries) => |path| > 1 && HasFile(entries, path[1..], content)
  }

  /** The walk finds exactly the files that can be reached by their paths. */
  lemma {:induction false} WalkFinds(entries: seq<Entry>, at: seq<string>, path: seq<string>, content: string)
    ensures OutFile(at + path, content) in Walk(entries, at, []) <==> HasFile(entries, path, content)
    decreases entries
  {
    if entries != [] {
      var front, e := entries[..|entries| - 1], entries[|entries| - 1];
      WalkFinds(front, at, path, content);
      WalkEntryFinds(e, at, path, content);
      OneMoreEntry(front, e, path, content);
      assert entries == front + [e];
    }
  }

  lemma OneMoreEntry(front: seq<Entry>, e: Entry, path: seq<string>, content: string)
    ensures HasFile(front + [e], path, content) <==> HasFile(front, path, content) || EntryHas(e, path, content)
  {
    var all := front + [e];
    if i :| 0 <= i < |front| && EntryHas(front[i], path, content) {
      assert EntryHas(all[i], path, content);
    }
    if EntryHas(e, path, content) {
      assert EntryHas(all[|front|], path, content);
    }
  }

  lemma {:induction false} WalkEntryFinds(e: Entry, at: seq<string>, path: seq<string>, content: string)
    ensures OutFile(at + path, content) in WalkEntry(e, at, []) <==> EntryHas(e, path, content)
    decreases e
  {
    match e.node
    case File(text) =>
      assert at + path == at + [e.name] <==> path == [e.name] by {
        assert (at + path)[|at|..] == path && (at + [e.name])[|at|..] == [e.name];
      }
    case Dir(entries) =>
      WalkEntryIsBelow(e, at, []);
      assert path != [] ==> (at + path)[|at|] == path[0];
      if |path| > 1 && path[0] == e.name {
        WalkFinds(entries, at + [e.name], path[1..], content);
        assert at + [e.name] + path[1..] == at + path;
      }
  }

  lemma AllFilesFound(tree: seq<Entry>, f: OutFile)
    ensures f in AllFiles(tree) <==> HasFile(tree, f.path, f.content)
  {
    WalkFinds(tree, [], f.path, f.content);
    assert [] + f.path == f.path;
  }

  // ------------------------------------------------------- walks as filters

  lemma {:induction false} FilterSplit(a: seq<OutFile>, b: seq<OutFile>, keep: OutFile -> bool)
    ensures Filter(a + b, keep) == Filter(a, keep) + Filter(b, keep)
  {
    if b == [] {
      assert a + b == a;
    } else {
      assert (a + b)[..|a + b| - 1] == a + b[..|b| - 1] && (a + b)[|a + b| - 1] == b[|b| - 1];
      FilterSplit(a, b[..|b| - 1], keep);
    }
  }

  lemma {:induction false} FilterAll(s: seq<OutFile>, keep: OutFile -> bool)
    ensures (forall f :: f in s ==> keep(f)) ==> Filter(s, keep) == s
    ensures (forall f :: f in s ==> !keep(f)) ==> Filter(s, keep) == []
  {
    if s != [] {
      FilterAll(s[..|s| - 1], keep);
      assert forall f :: f in s[..|s| - 1] ==> f in s;
      assert s[|s| - 1] in s;
    }
  }

  /** Every file of a walk lies strictly below its starting point. */
  lemma {:induction false} WalkIsBelow(entries: seq<Entry>, at: seq<string>, ignored: seq<string>)
    ensures forall f :: f in Walk(entries, at, ignored) ==> |f.path| > |at| && f.path[..|at|] == at
    decreases entries
  {
    if entries != [] {
      WalkIsBelow(entries[..|entries| - 1], at, ignored);
      WalkEntryIsBelow(entries[|entries| - 1], at, ignored);
    }
  }

  lemma {:induction false} WalkEntryIsBelow(e: Entry, at: seq<string>, ignored: seq<string>)
    ensures forall f :: f in WalkEntry(e, at, ignored) ==>
      |f.path| > |at| && f.path[..|at|] == at && f.path[|at|] == e.name && (e.node.Dir? ==> |f.path| > |at| + 1)
    decreases e
  {
    if e.node.Dir? && e.name !in ignored {
      WalkIsBelow(e.node.entries, at + [e.name], []);
      forall f | f in WalkEntry(e, at, ignored)
        ensures f.path[..|at|] == at && f.path[|at|] == e.name
      {
        assert f.path[..|at| + 1] == at + [e.name];
        assert f.path[..|at|] == f.path[..|at| + 1][..|at|];
      }
    }
  }

  /** Ignoring directories at the root keeps exactly the files outside them. */
  lemma {:induction false} IgnoredIsFilter(tree: seq<Entry>, ignored: seq<string>)
    ensures Walk(tree, [], ignored) == Leftover(tree, ignored)
    decreases |tree|
  {
    if tree != [] {
      var front, e := tree[..|tree| - 1], tree[|tree| - 1];
      var keep := (f: OutFile) => !InSome(f, ignored);
      IgnoredIsFilter(front, ignored);
      FilterSplit(Walk(front, [], []), WalkEntry(e, [], []), keep);
      WalkEntryIsBelow(e, [], []);
      FilterAll(WalkEntry(e, [], []), keep);
    }
  }

  lemma {:induction false} OutsideIsDropped(tree: seq<Entry>, directory: string)
    requires forall i :: 0 <= i < |tree| && tree[i].node.Dir? ==> tree[i].name != directory
    ensures FilesUnder(tree, directory) == []
    decreases |tree|
  {
    if tree != [] {
      var front, e := tree[..|tree| - 1], tree[|tree| - 1];
      OutsideIsDropped(front, directory);
      EntryUnder(front, e, directory);
    }
  }

  /** One more entry adds its whole walk or nothing. */
  lemma EntryUnder(front: seq<Entry>, e: Entry, directory: string)
    ensures FilesUnder(front + [e], directory) == FilesUnder(front, directory)
      + (if e.node.Dir? && e.name == directory then WalkEntry(e, [], []) else [])
  {
    var tree := front + [e];
    var keep := (f: OutFile) => InDir(f, directory);
    assert tree[..|tree| - 1] == front;
    FilterSplit(Walk(front, [], []), WalkEntry(e, [], []), keep);
    WalkEntryIsBelow(e, [], []);
    FilterAll(WalkEntry(e, [], []), keep);
  }

  /** The walk of a listed directory is the part of the whole walk below it. */
  lemma {:induction false} SubtreeIsFilter(tree: seq<Entry>, directory: string)
    requires WellFormed(tree) && HasDir(tree, directory)
    ensures Walk(SubEntries(tree, directory), [directory], []) == FilesUnder(tree, directory)
    decreases |tree|
  {
    var front, e := tree[..|tree| - 1], tree[|tree| - 1];
    assert tree == front + [e];
    EntryUnder(front, e, directory);
    if e.name == directory {
      OutsideIsDropped(front, directory);
      assert [] + [e.name] == [directory];
    } else {
      assert forall i :: 0 <= i < |front| ==> front[i] == tree[i];
      SubtreeIsFilter(front, directory);
    }
  }

  // -------------------------------------------------------------- partition

  predicate DistinctPaths(s: seq<OutFile>) {
    forall i, j :: 0 <= i < j < |s| ==> s[i].path != s[j].path
  }

  lemma {:induction false} WalkIsDistinct(entries: seq<Entry>, at: seq<string>)
    requires WellFormed(entries)
    ensures DistinctPaths(Walk(entries, at, []))
    decreases entries
  {
    if entries != [] {
      var front, e := entries[..|entries| - 1], entries[|entries| - 1];
      assert WellFormed(front);
      WalkIsDistinct(front, at);
      if e.node.Dir? {
        WalkIsDistinct(e.node.entries, at + [e.name]);
      }
      var a, b := Walk(front, at, []), WalkEntry(e, at, []);
      WalkEntryIsBelow(e, at, []);
      OtherNames(front, at, e.name);
      var all: seq<OutFile> := a + b;
      forall i, j | 0 <= i < j < |all|
        ensures all[i].path != all[j].path
      {
        if i < |a| <= j {
          assert a[i] in a && b[j - |a|] in b;
        }
      }
    }
  }

  lemma {:induction false} OtherNames(entries: seq<Entry>, at: seq<string>, name: string)
    requires forall i :: 0 <= i < |entries| ==> entries[i].name != name
    ensures forall f :: f in Walk(entries, at, []) ==> |f.path| > |at| && f.path[|at|] != name
    decreases |entries|
  {
    if entries != [] {
      OtherNames(entries[..|entries| - 1], at, name);
      WalkEntryIsBelow(entries[|entries| - 1], at, []);
    }
  }

  function Count(s: seq<OutFile>, f: OutFile): nat {
    if s == [] then 0 else Count(s[..|s| - 1], f) + (if s[|s| - 1] == f then 1 else 0)
  }

  lemma {:induction false} CountFilter(s: seq<OutFile>, keep: OutFile -> bool, f: OutFile)
    ensures Count(Filter(s, keep), f) == if keep(f) then Count(s, f) else 0
  {
    if s != [] {
      CountFilter(s[..|s| - 1], keep, f);
      if keep(s[|s| - 1]) {
        var r := Filter(s, keep);
        assert r[..|r| - 1] == Filter(s[..|s| - 1], keep);
      }
    }
  }

  lemma {:induction false} CountDistinct(s: seq<OutFile>, f: OutFile)
    requires DistinctPaths(s)
    ensures Count(s, f) == if f in s then 1 else 0
  {
    if s != [] {
      var front, last := s[..|s| - 1], s[|s| - 1];
      CountDistinct(front, f);
      assert s == front + [last];
      assert last !in front;
    }
  }

  function Total(groups: seq<Group>, f: OutFile): nat {
    if groups == [] then 0
    else Total(groups[..|groups| - 1], f) + Count(groups[|groups| - 1].workloads, f)
  }

  function Escaping(directories: seq<string>): nat {
    if directories == [] then 0
    else Escaping(directories[..|directories| - 1]) + (if Escapes(directories[|directories| - 1]) then 1 else 0)
  }

  lemma {:induction false} CountSplit(a: seq<OutFile>, b: seq<OutFile>, f: OutFile)
    ensures Count(a + b, f) == Count(a, f) + Count(b, f)
  {
    if b == [] {
      assert a + b == a;
    } else {
      assert (a + b)[..|a + b| - 1] == a + b[..|b| - 1];
      CountSplit(a, b[..|b| - 1], f);
    }
  }

  lemma {:induction false} CountAbsent(s: seq<OutFile>, f: OutFile)
    requires f !in s
    ensures Count(s, f) == 0
  {
    if s != [] {
      CountAbsent(s[..|s| - 1], f);
    }
  }

  /** How often one listed directory's group holds a file that does not lie outside the output. */
  lemma CountAt(v: Volume, directory: string, f: OutFile)
    requires WellFormed(v.tree) && f.path != [] && f.path[0] != ".."
    ensures Count(FilesAt(v, directory), f) ==
      if f in AllFiles(v.tree) && (Escapes(directory) || InDir(f, directory)) then 1 else 0
  {
    WalkIsDistinct(v.tree, []);
    CountDistinct(AllFiles(v.tree), f);
    if directory == ".." {
      var before, after := Walk(v.before, [".."], []), Walk(v.after, [".."], []);
      WalkIsBelow(v.before, [".."], []);
      WalkIsBelow(v.after, [".."], []);
      assert forall g :: g in before || g in after ==> g.path[0] == g.path[..1][0];
      CountAbsent(before, f);
      CountAbsent(after, f);
      CountSplit(before, AllFiles(v.tree), f);
      CountSplit(before + AllFiles(v.tree), after, f);
    } else {
      CountFilter(AllFiles(v.tree), x => InDir(x, directory), f);
    }
  }

  lemma {:induction false} TotalOfDirs(v: Volume, directories: seq<string>, f: OutFile)
    requires WellFormed(v.tree) && f in AllFiles(v.tree) && f.path != [] && f.path[0] != ".." && f.path[0] != "/"
    requires forall i, j :: 0 <= i < j < |directories| ==> directories[i] != directories[j]
    ensures Total(DirGroups(v, directories), f) == Escaping(directories) + (if InSome(f, directories) then 1 else 0)
  {
    if directories != [] {
      var front, d := directories[..|directories| - 1], directories[|directories| - 1];
      assert directories == front + [d];
      TotalOfDirs(v, front, f);
      OneMoreDir(v, front, d, f);
      CountAt(v, d, f);
      InOneMore(f, front, d);
    }
  }

  lemma OneMoreDir(v: Volume, front: seq<string>, d: string, f: OutFile)
    ensures Total(DirGroups(v, front + [d]), f) == Total(DirGroups(v, front), f) + Count(FilesAt(v, d), f)
    ensures Escaping(front + [d]) == Escaping(front) + (if Escapes(d) then 1 else 0)
  {
    var groups := DirGroups(v, front + [d]);
    assert groups[..|groups| - 1] == DirGroups(v, front);
    assert (front + [d])[..|front|] == front;
  }

  lemma InOneMore(f: OutFile, front: seq<string>, d: string)
    requires d !in front
    ensures InSome(f, front + [d]) <==> InSome(f, front) || InDir(f, d)
    ensures !(InSome(f, front) && InDir(f, d))
  {
    assert forall x :: x in front + [d] <==> x in front || x == d;
  }

  /** A file's path is never empty, and starts with neither ".." nor "/". */
  lemma FileIsInside(tree: seq<Entry>, f: OutFile)
    requires WellFormed(tree) && f in AllFiles(tree)
    ensures f.path != [] && f.path[0] != ".." && f.path[0] != "/"
  {
    WalkIsBelow(tree, [], []);
    assert '/' in "/";
    OtherNames(tree, [], "..");
    OtherNames(tree, [], "/");
  }

  /** Some entry is for this directory. */
  predicate Mentions(config: seq<Selector>, directory: string) {
    exists i :: 0 <= i < |config| && config[i].directory == directory
  }

  /** How many of "/" and ".." the entries mention. */
  function Escapees(config: seq<Selector>): nat {
    (if Mentions(config, "/") then 1 else 0) + (if Mentions(config, "..") then 1 else 0)
  }

  lemma {:induction false} ListedIff(config: seq<Selector>, directory: string)
    ensures directory in Listed(config) <==> directory != "." && Mentions(config, directory)
  {
    if config != [] {
      var front := config[..|config| - 1];
      ListedIff(front, directory);
      assert Mentions(config, directory) <==> Mentions(front, directory) || config[|config| - 1].directory == directory by {
        assert forall i :: 0 <= i < |front| ==> front[i] == config[i];
      }
    }
  }

  /** For a list without repetitions, how often "/" and ".." are in it. */
  lemma {:induction false} EscapingIs(directories: seq<string>)
    requires forall i, j :: 0 <= i < j < |directories| ==> directories[i] != directories[j]
    ensures Escaping(directories) == (if "/" in directories then 1 else 0) + (if ".." in directories then 1 else 0)
  {
    if directories != [] {
      var front, d := directories[..|directories| - 1], directories[|directories| - 1];
      EscapingIs(front);
      assert d !in front;
      assert forall x :: x in directories <==> x in front || x == d;
      assert "/"[0] != ".."[0];
    }
  }

  lemma EscapingOf(config: seq<Selector>)
    requires Distinct(config)
    ensures Escaping(Listed(config)) == Escapees(config)
  {
    ListedIsDistinct(config);
    EscapingIs(Listed(config));
    ListedIff(config, "/");
    ListedIff(config, "..");
    assert "/"[0] != "."[0] && |".."| != |"."|;
  }

  /** Every file of the output is in the groups once, and once more for each of "/" and ".." that an
      entry mentions. */
  lemma EveryFileCounted(v: Volume, config: seq<Selector>, f: OutFile)
    requires WellFormed(v.tree) && Distinct(config) && HasFile(v.tree, f.path, f.content)
    ensures Total(Groups(v, Listed(config)), f) == 1 + Escapees(config)
  {
    AllFilesFound(v.tree, f);
    CountedInAll(v, config, f);
    EscapingOf(config);
  }

  lemma CountedInAll(v: Volume, config: seq<Selector>, f: OutFile)
    requires WellFormed(v.tree) && Distinct(config) && f in AllFiles(v.tree)
    ensures Total(Groups(v, Listed(config)), f) == 1 + Escaping(Listed(config))
  {
    var directories := Listed(config);
    var groups, rest := Groups(v, directories), Leftover(v.tree, directories);
    FileIsInside(v.tree, f);
    ListedIsDistinct(config);
    TotalOfDirs(v, directories, f);
    WalkIsDistinct(v.tree, []);
    CountDistinct(AllFiles(v.tree), f);
    CountFilter(AllFiles(v.tree), x => !InSome(x, directories), f);
    if rest == [] {
      assert groups == DirGroups(v, directories);
    } else {
      assert groups[..|groups| - 1] == DirGroups(v, directories);
    }
  }

  /** The groups split the output, each file in exactly one place, if and only if no listed
      directory escapes it or there is nothing to split. */
  lemma OutputIsPartitionedIff(v: Volume, config: seq<Selector>)
    requires WellFormed(v.tree) && Distinct(config)
    ensures (forall f: OutFile :: HasFile(v.tree, f.path, f.content) ==> Total(Groups(v, Listed(config)), f) == 1)
      <==> (forall path, content :: !HasFile(v.tree, path, content)) || !(Mentions(config, "/") || Mentions(config, ".."))
  {
    forall f: OutFile | HasFile(v.tree, f.path, f.content)
      ensures Total(Groups(v, Listed(config)), f) == 1 + Escapees(config)
    {
      EveryFileCounted(v, config, f);
    }
    if path, content :| HasFile(v.tree, path, content) {
      assert HasFile(v.tree, OutFile(path, content).path, OutFile(path, content).content);
    }
  }

  /** The group a file belongs to: that of its top-level directory if an entry mentions it, the
      default group otherwise. */
  function Home(config: seq<Selector>, path: seq<string>): string {
    if |path| > 1 && path[0] != "." && Mentions(config, path[0]) then path[0] else "."
  }

  /** Without "/" and ".." a group holds exactly the files of the output that belong to it. */
  lemma FileIsAtHome(v: Volume, config: seq<Selector>, f: OutFile, group: Group)
    requires WellFormed(v.tree) && Distinct(config) && !Mentions(config, "/") && !Mentions(config, "..")
    requires group in Groups(v, Listed(config))
    ensures f in group.workloads <==> HasFile(v.tree, f.path, f.content) && Home(config, f.path) == group.directory
  {
    var directories := Listed(config);
    var g :| 0 <= g < |Groups(v, directories)| && Groups(v, directories)[g] == group;
    AllFilesFound(v.tree, f);
    EscapingOf(config);
    ListedIff(config, group.directory);
    if f.path != [] {
      ListedIff(config, f.path[0]);
    }
    if g < |directories| {
      NoneEscapes(directories, g);
      FilterMember(AllFiles(v.tree), x => InDir(x, directories[g]), f);
    } else {
      FilterMember(AllFiles(v.tree), x => !InSome(x, directories), f);
    }
  }

  lemma {:induction false} NoneEscapes(directories: seq<string>, g: nat)
    requires g < |directories| && Escaping(directories) == 0
    ensures !Escapes(directories[g])
    decreases |directories|
  {
    if g < |directories| - 1 {
      NoneEscapes(directories[..|directories| - 1], g);
    }
  }

  lemma {:induction false} FilterMember(s: seq<OutFile>, keep: OutFile -> bool, f: OutFile)
    ensures f in Filter(s, keep) <==> f in s && keep(f)
  {
    if s != [] {
      FilterMember(s[..|s| - 1], keep, f);
      assert s == s[..|s| - 1] + [s[|s| - 1]];
    }
  }

  /** "/" passes every check of the parser, and then every file is sent twice. */
  lemma SlashSendsTwice(v: Volume, labels: map<string, string>, f: OutFile)
    requires WellFormed(v.tree) && labels != map[] && HasFile(v.tree, f.path, f.content)
    ensures Accepted([Selector("/", labels)])
    ensures Total(Groups(v, Listed([Selector("/", labels)])), f) == 2
  {
    var config := [Selector("/", labels)];
    EveryFileCounted(v, config, f);
    assert config[0].directory == "/" && |".."| != |"/"|;
  }

  /** Accepted selectors list each directory once. */
  lemma {:induction false} ListedIsDistinct(config: seq<Selector>)
    requires Distinct(config)
    ensures forall i, j :: 0 <= i < j < |Listed(config)| ==> Listed(config)[i] != Listed(config)[j]
    ensures forall d :: d in Listed(config) ==> exists i :: 0 <= i < |config| && config[i].directory == d
  {
    if config != [] {
      var front := config[..|config| - 1];
      ListedIsDistinct(front);
      forall d | d in Listed(front)
        ensures exists i :: 0 <= i < |config| - 1 && config[i].directory == d
      {
        var i :| 0 <= i < |front| && front[i].directory == d;
        assert config[i].directory == d;
      }
      assert config[|config| - 1].directory !in Listed(front);
    }
  }
}
