/** The two state store writers (lib/writers/s3.go, lib/writers/git.go) as operations on a map
    from full path to content, and the one update they are meant to implement. */
module Writers {
  import opened Wrappers

  type Files = map<string, string>

  datatype Workload = Workload(filepath: string, content: string)

  /** filepath.Join of two clean relative paths; an empty operand disappears. */
  function PathJoin(a: string, b: string): string {
    if a == "" then b else if b == "" then a else a + "/" + b
  }

  function TrimSlash(dir: string): string {
    if dir != "" && dir[|dir| - 1] == '/' then dir[..|dir| - 1] else dir
  }

  /** `key` is the file `root` itself or lies in the directory `root`. */
  predicate Inside(root: string, key: string) {
    key == root || root + "/" <= key
  }

  lemma InsideIsPrefix(root: string, key: string)
    requires Inside(root, key)
    ensures root <= key
  {
    assert root <= root + "/";
  }

  function Destination(root: string, w: Workload): string {
    PathJoin(root, w.filepath)
  }

  /** Writes the workloads in list order; the last one for a path wins. */
  function WriteAll(files: Files, root: string, creates: seq<Workload>): Files {
    if creates == [] then files
    else
      var w := creates[|creates| - 1];
      WriteAll(files, root, creates[..|creates| - 1])[Destination(root, w) := w.content]
  }

  function Targets(root: string, creates: seq<Workload>): set<string> {
    set i | 0 <= i < |creates| :: Destination(root, creates[i])
  }

  function Listed(path: string, deletes: seq<string>): set<string> {
    set i | 0 <= i < |deletes| :: PathJoin(path, deletes[i])
  }

  /** The update both writers are meant to perform: a non-empty directory is replaced as a whole,
      otherwise the listed files go; then the workloads are written. */
  function UpdateFiles(files: Files, path: string, dir: string, creates: seq<Workload>, deletes: seq<string>): Files {
    var root := PathJoin(path, TrimSlash(dir));
    var gone := if dir != "" then set k | k in files && Inside(root, k) else Listed(path, deletes);
    WriteAll(files - gone, root, creates)
  }

  // ------------------------------------------------------ facts on WriteAll

  lemma {:induction false} WriteAllLooksUp(files: Files, root: string, creates: seq<Workload>, k: string)
    ensures k in WriteAll(files, root, creates) <==> k in files || k in Targets(root, creates)
    ensures k !in Targets(root, creates) && k in files ==> WriteAll(files, root, creates)[k] == files[k]
  {
    if creates != [] {
      var front, w := creates[..|creates| - 1], creates[|creates| - 1];
      WriteAllLooksUp(files, root, front, k);
      assert Targets(root, creates) == Targets(root, front) + {Destination(root, w)} by {
        assert forall i :: 0 <= i < |front| ==> front[i] == creates[i];
        assert creates[|creates| - 1] == w;
      }
    }
  }

  /** No later workload has the same path. */
  predicate IsLastFor(root: string, creates: seq<Workload>, i: nat) {
    i < |creates| && forall j :: i < j < |creates| ==> Destination(root, creates[j]) != Destination(root, creates[i])
  }

  /** At each written path there is the content of the last workload for it. */
  lemma {:induction false} LastContentWins(files: Files, root: string, creates: seq<Workload>, i: nat)
    requires IsLastFor(root, creates, i)
    ensures var k := Destination(root, creates[i]);
      k in WriteAll(files, root, creates) && WriteAll(files, root, creates)[k] == creates[i].content
  {
    if i < |creates| - 1 {
      var front := creates[..|creates| - 1];
      assert forall j :: 0 <= j < |front| ==> front[j] == creates[j];
      LastContentWins(files, root, front, i);
    }
  }

  lemma {:induction false} SomeIsLast(root: string, creates: seq<Workload>, k: string) returns (i: nat)
    requires k in Targets(root, creates)
    ensures IsLastFor(root, creates, i) && Destination(root, creates[i]) == k
  {
    var front := creates[..|creates| - 1];
    if Destination(root, creates[|creates| - 1]) == k {
      i := |creates| - 1;
    } else {
      var j :| 0 <= j < |creates| && Destination(root, creates[j]) == k;
      assert front[j] == creates[j];
      i := SomeIsLast(root, front, k);
      assert forall j :: 0 <= j < |front| ==> front[j] == creates[j];
    }
  }

  /** What is written does not depend on what was there before. */
  lemma {:induction false} WriteAllAgrees(a: Files, b: Files, root: string, creates: seq<Workload>, k: string)
    requires k in Targets(root, creates)
    ensures k in WriteAll(a, root, creates) && k in WriteAll(b, root, creates)
    ensures WriteAll(a, root, creates)[k] == WriteAll(b, root, creates)[k]
  {
    var front, w := creates[..|creates| - 1], creates[|creates| - 1];
    if k != Destination(root, w) {
      var i :| 0 <= i < |creates| && Destination(root, creates[i]) == k;
      assert front[i] == creates[i];
      WriteAllAgrees(a, b, root, front, k);
    }
  }

  /** Removing first or removing last comes to the same when written paths are spared. */
  lemma RemoveThenWrite(files: Files, root: string, creates: seq<Workload>, gone: set<string>)
    ensures WriteAll(files - gone, root, creates) == WriteAll(files, root, creates) - (gone - Targets(root, creates))
  {
    var a, b := WriteAll(files - gone, root, creates), WriteAll(files, root, creates) - (gone - Targets(root, creates));
    forall k
      ensures k in a <==> k in b
      ensures k in a ==> a[k] == b[k]
    {
      WriteAllLooksUp(files - gone, root, creates, k);
      WriteAllLooksUp(files, root, creates, k);
      if k in Targets(root, creates) {
        WriteAllAgrees(files - gone, files, root, creates, k);
      }
    }
  }

  // -------------------------------------------------------------------- S3

  /** Where an S3 update stops: when listing a directory fails, at an object in `stats` that cannot
      be looked up, at the first upload past `puts` successful ones, and at every removal of an
      object in `stuck`. */
  datatype S3Faults = S3Faults(listing: bool, stats: set<string>, puts: nat, stuck: set<string>)

  datatype S3Result = Updated | ListFailed | PutFailed(written: nat) | DeleteFailed

  /** The objects listed for a directory: a bare string prefix, because filepath.Join strips the
      slash that was just appended. */
  function ObjectsWithPrefix(bucket: Files, prefix: string): set<string> {
    set k | k in bucket && prefix <= k
  }

  function S3Doomed(bucket: Files, path: string, dir: string, deletes: seq<string>): set<string> {
    if dir != "" then ObjectsWithPrefix(bucket, PathJoin(path, TrimSlash(dir)))
    else Listed(path, deletes) * bucket.Keys
  }

  /** What an S3 update without faults leaves in the bucket. */
  function S3Update(bucket: Files, path: string, dir: string, creates: seq<Workload>, deletes: seq<string>): Files {
    WriteAll(bucket - S3Doomed(bucket, path, dir, deletes), PathJoin(path, TrimSlash(dir)), creates)
  }

  /** What is left when the uploads succeed but the objects in `stuck` cannot be removed. */
  function S3Interrupted(bucket: Files, path: string, dir: string, creates: seq<Workload>, deletes: seq<string>, stuck: set<string>): Files {
    var root := PathJoin(path, TrimSlash(dir));
    WriteAll(bucket, root, creates) - (S3Doomed(bucket, path, dir, deletes) - Targets(root, creates) - stuck)
  }

  class S3Writer {
    const path: string
    const md5: string -> string
    var bucket: Files

    constructor (path: string, md5: string -> string, bucket: Files)
      ensures this.path == path && this.md5 == md5 && this.bucket == bucket
    {
      this.path, this.md5, this.bucket := path, md5, bucket;
    }

    method Update(dir: string, creates: seq<Workload>, deletes: seq<string>, f: S3Faults) returns (r: S3Result)
      requires forall x, y :: md5(x) == md5(y) ==> x == y
      modifies this`bucket
      ensures r.Updated? ==> bucket == S3Update(old(bucket), path, dir, creates, deletes)
      ensures r.ListFailed? ==> bucket == old(bucket)
      ensures r.PutFailed? ==>
        (r.written < |creates| && bucket == WriteAll(old(bucket), PathJoin(path, TrimSlash(dir)), creates[..r.written]))
      ensures r.DeleteFailed? ==> bucket == S3Interrupted(old(bucket), path, dir, creates, deletes, f.stuck)
      ensures !f.listing && f.stats == {} && |creates| <= f.puts && f.stuck == {} ==> r.Updated?
    {
      var root := PathJoin(path, TrimSlash(dir));
      ghost var before := bucket;
      var listed, doomed := ListDoomed(dir, deletes, f);
      if !listed {
        return ListFailed;
      }
      var written := WriteObjects(root, creates, f);
      if written < |creates| {
        return PutFailed(written);
      }
      assert creates[..written] == creates;
      RemoveThenWrite(before, root, creates, doomed);
      var stale := doomed - Targets(root, creates);
      var ok := DeleteObjects(stale, f.stuck);
      if ok {
        assert forall k :: k in stale ==> k !in stale * f.stuck ==> k !in f.stuck;
        assert stale - f.stuck == stale;
      }
      return if ok then Updated else DeleteFailed;
    }

    /** Uploads in list order what differs from the stored object's ETag, until a lookup or an upload fails. */
    method WriteObjects(root: string, creates: seq<Workload>, f: S3Faults) returns (written: nat)
      requires forall x, y :: md5(x) == md5(y) ==> x == y
      modifies this`bucket
      ensures written <= |creates| && (|creates| <= f.puts && f.stats == {} ==> written == |creates|)
      ensures bucket == WriteAll(old(bucket), root, creates[..written])
    {
      var puts := 0;
      written := 0;
      while written < |creates|
        invariant 0 <= puts <= written <= |creates|
        invariant bucket == WriteAll(old(bucket), root, creates[..written])
      {
        var w := creates[written];
        var key := Destination(root, w);
        TargetsExtend(root, creates, written);
        if key in f.stats {
          return;
        }
        if key in bucket && md5(bucket[key]) == md5(w.content) {
          assert bucket[key := w.content] == bucket;
        } else {
          if puts >= f.puts {
            return;
          }
          bucket := bucket[key := w.content];
          puts := puts + 1;
        }
        written := written + 1;
      }
    }

    method ListDoomed(dir: string, deletes: seq<string>, f: S3Faults) returns (ok: bool, doomed: set<string>)
      ensures ok <==> if dir != "" then !f.listing else Listed(path, deletes) * f.stats == {}
      ensures ok ==> doomed == S3Doomed(bucket, path, dir, deletes)
    {
      if dir != "" {
        return !f.listing, ObjectsWithPrefix(bucket, PathJoin(path, TrimSlash(dir)));
      }
      doomed := {};
      var i := 0;
      while i < |deletes|
        invariant 0 <= i <= |deletes|
        invariant doomed == Listed(path, deletes[..i]) * bucket.Keys
        invariant Listed(path, deletes[..i]) * f.stats == {}
      {
        var key := PathJoin(path, deletes[i]);
        assert Listed(path, deletes[..i + 1]) == Listed(path, deletes[..i]) + {key} by {
          assert forall j :: 0 <= j < i ==> deletes[..i + 1][j] == deletes[..i][j];
          assert deletes[..i + 1][i] == deletes[i];
        }
        if key in f.stats {
          assert key in Listed(path, deletes) * f.stats;
          return false, {};
        }
        if key in bucket {
          doomed := doomed + {key};
        }
        i := i + 1;
      }
      assert deletes[..i] == deletes;
      ok := true;
    }

    /** Removes the objects in any order and carries on past failures. */
    method DeleteObjects(doomed: set<string>, stuck: set<string>) returns (ok: bool)
      modifies this`bucket
      ensures bucket == old(bucket) - (doomed - stuck)
      ensures ok <==> doomed * stuck == {}
    {
      var left := doomed;
      var failures := 0;
      while left != {}
        invariant left <= doomed
        invariant bucket == old(bucket) - (doomed - left - stuck)
        invariant failures == 0 <==> (doomed - left) * stuck == {}
        invariant failures >= 0
        decreases left
      {
        var key :| key in left;
        if key in stuck {
          assert key in (doomed - (left - {key})) * stuck;
          assert doomed - (left - {key}) - stuck == doomed - left - stuck;
          failures := failures + 1;
        } else {
          assert (doomed - (left - {key})) * stuck == (doomed - left) * stuck;
          RemoveOneMore(old(bucket), doomed - left - stuck, key);
          assert doomed - (left - {key}) - stuck == (doomed - left - stuck) + {key};
          bucket := bucket - {key};
        }
        left := left - {key};
      }
      assert doomed - left == doomed;
      return failures == 0;
    }
  }

  lemma RemoveOneMore(files: Files, gone: set<string>, key: string)
    ensures files - gone - {key} == files - (gone + {key})
  {
  }

  lemma TargetsExtend(root: string, creates: seq<Workload>, i: nat)
    requires i < |creates|
    ensures Targets(root, creates[..i + 1]) == Targets(root, creates[..i]) + {Destination(root, creates[i])}
    ensures creates[..i + 1][..i] == creates[..i] && creates[..i + 1][i] == creates[i]
  {
    assert forall j :: 0 <= j < i ==> creates[..i + 1][j] == creates[..i][j];
    assert creates[..i + 1][i] == creates[i];
  }

  // ------------------------------------------------------------------- Git

  /** A commit's content: no file sits where another one needs a directory. */
  predicate IsTree(files: Files) {
    forall a, b :: a in files && b in files ==> !(a + "/" <= b)
  }

  predicate Blocked(files: Files, key: string) {
    exists k :: k in files && (k + "/" <= key || key + "/" <= k)
  }

  /** The repository cannot be cloned; the commit cannot be made or pushed. */
  datatype GitFaults = GitFaults(clone: bool, push: bool)

  /** A listed path is, or is a directory above, `key`. */
  predicate BelowListed(path: string, deletes: seq<string>, key: string) {
    exists i :: 0 <= i < |deletes| && Inside(PathJoin(path, deletes[i]), key)
  }

  /** What goes before the workloads are written: a listed path that is a directory goes with all it
      holds, like the placement's own directory does. */
  function GitDoomed(files: Files, path: string, dir: string, deletes: seq<string>): set<string> {
    if dir != "" then set k | k in files && Inside(PathJoin(path, TrimSlash(dir)), k)
    else set k | k in files && BelowListed(path, deletes, k)
  }

  /** What remove-then-write commits: nothing, if a file would sit where a directory is needed. */
  function GitUpdate(files: Files, path: string, dir: string, creates: seq<Workload>, deletes: seq<string>): Option<Files> {
    var r := WriteAll(files - GitDoomed(files, path, dir, deletes), PathJoin(path, TrimSlash(dir)), creates);
    if IsTree(r) then Some(r) else None
  }

  predicate GitSucceeds(files: Files, path: string, dir: string, creates: seq<Workload>, deletes: seq<string>, f: GitFaults) {
    || (creates == [] && deletes == [] && dir == "")
    || (!f.clone && var r := GitUpdate(files, path, dir, creates, deletes); r.Some? && (f.push ==> r.value == files))
  }

  class GitWriter {
    const path: string
    var commit: Files

    constructor (path: string, commit: Files)
      ensures this.path == path && this.commit == commit
    {
      this.path, this.commit := path, commit;
    }

    /** Works on a clone and pushes at the end, so a failure leaves the repository alone.  Without
        anything to do nothing is cloned, and without a change nothing is pushed. */
    method Update(dir: string, creates: seq<Workload>, deletes: seq<string>, f: GitFaults) returns (ok: bool)
      requires IsTree(commit)
      modifies this`commit
      ensures ok <==> GitSucceeds(old(commit), path, dir, creates, deletes, f)
      ensures ok ==> Some(commit) == GitUpdate(old(commit), path, dir, creates, deletes)
      ensures !ok ==> commit == old(commit)
    {
      if creates == [] && deletes == [] && dir == "" {
        assert GitDoomed(commit, path, dir, deletes) == {};
        assert commit - {} == commit;
        return true;
      }
      if f.clone {
        return false;
      }
      var root := PathJoin(path, TrimSlash(dir));
      var cleared := DeleteExistingFiles(dir != "", root, deletes);
      var worktree;
      ok, worktree := WriteFiles(cleared, root, creates);
      if ok && worktree != commit {
        if f.push {
          return false;
        }
        commit := worktree;
      }
    }

    method WriteFiles(cleared: Files, root: string, creates: seq<Workload>) returns (ok: bool, worktree: Files)
      requires IsTree(cleared)
      ensures ok <==> IsTree(WriteAll(cleared, root, creates))
      ensures ok ==> worktree == WriteAll(cleared, root, creates)
    {
      worktree := cleared;
      var i := 0;
      while i < |creates|
        invariant 0 <= i <= |creates|
        invariant worktree == WriteAll(cleared, root, creates[..i])
        invariant IsTree(worktree)
      {
        var key := Destination(root, creates[i]);
        TargetsExtend(root, creates, i);
        if Blocked(worktree, key) {
          BlockedForever(cleared, root, creates, i);
          return false, worktree;
        }
        TreeGrows(worktree, key, creates[i].content);
        worktree := worktree[key := creates[i].content];
        i := i + 1;
      }
      assert creates[..i] == creates;
      return true, worktree;
    }

    method DeleteExistingFiles(removeDirectory: bool, root: string, deletes: seq<string>) returns (worktree: Files)
      ensures removeDirectory ==> worktree == commit - set k | k in commit && Inside(root, k)
      ensures !removeDirectory ==> worktree == commit - set k | k in commit && BelowListed(root, deletes, k)
    {
      WithoutIs(commit, root, deletes);
      if removeDirectory {
        return Without(commit, root);
      }
      worktree := commit;
      NothingListed(commit, root);
      var i := 0;
      while i < |deletes|
        invariant 0 <= i <= |deletes|
        invariant worktree == WithoutListed(commit, root, deletes[..i])
      {
        var key := PathJoin(root, deletes[i]);
        OneMoreRemoved(commit, root, deletes, i);
        worktree := Without(worktree, key);
        i := i + 1;
      }
      assert deletes[..i] == deletes;
    }
  }

  /** The files left when `key` goes, with everything below it. */
  function Without(files: Files, key: string): Files {
    map k | k in files && !Inside(key, k) :: files[k]
  }

  ghost function WithoutListed(files: Files, path: string, deletes: seq<string>): Files {
    map k | k in files && !BelowListed(path, deletes, k) :: files[k]
  }

  lemma WithoutIs(files: Files, path: string, deletes: seq<string>)
    ensures Without(files, path) == files - set k | k in files && Inside(path, k)
    ensures WithoutListed(files, path, deletes) == files - set k | k in files && BelowListed(path, deletes, k)
  {
  }

  lemma NothingListed(files: Files, path: string)
    ensures WithoutListed(files, path, []) == files
  {
  }

  lemma OneMoreRemoved(files: Files, path: string, deletes: seq<string>, i: nat)
    requires i < |deletes|
    ensures Without(WithoutListed(files, path, deletes[..i]), PathJoin(path, deletes[i])) == WithoutListed(files, path, deletes[..i + 1])
  {
    forall k
      ensures BelowListed(path, deletes[..i + 1], k) <==> BelowListed(path, deletes[..i], k) || Inside(PathJoin(path, deletes[i]), k)
    {
      OneMoreListed(path, deletes, i, k);
    }
  }

  lemma OneMoreListed(path: string, deletes: seq<string>, i: nat, k: string)
    requires i < |deletes|
    ensures BelowListed(path, deletes[..i + 1], k) <==> BelowListed(path, deletes[..i], k) || Inside(PathJoin(path, deletes[i]), k)
  {
    var more := deletes[..i + 1];
    assert forall j :: 0 <= j < i ==> more[j] == deletes[..i][j];
    if BelowListed(path, deletes[..i], k) {
      var j :| 0 <= j < i && Inside(PathJoin(path, deletes[..i][j]), k);
      assert Inside(PathJoin(path, more[j]), k);
    }
    assert more[i] == deletes[i];
  }

  lemma TreeGrows(files: Files, key: string, content: string)
    requires IsTree(files) && !Blocked(files, key)
    ensures IsTree(files[key := content])
  {
  }

  lemma BlockedForever(files: Files, root: string, creates: seq<Workload>, i: nat)
    requires i < |creates| && Blocked(WriteAll(files, root, creates[..i]), Destination(root, creates[i]))
    ensures !IsTree(WriteAll(files, root, creates))
  {
    var key := Destination(root, creates[i]);
    var part, all := WriteAll(files, root, creates[..i]), WriteAll(files, root, creates);
    var k :| k in part && (k + "/" <= key || key + "/" <= k);
    WriteAllLooksUp(files, root, creates[..i], k);
    WriteAllLooksUp(files, root, creates, k);
    WriteAllLooksUp(files, root, creates, key);
    assert forall j :: 0 <= j < i ==> creates[..i][j] == creates[j];
    assert Targets(root, creates[..i]) <= Targets(root, creates);
    assert k in all && key in all;
  }

  // ------------------------------------------------- the writers compared

  /** No object shares the directory's name as a bare string prefix without lying in it. */
  predicate NoSibling(files: Files, root: string) {
    forall k :: k in files && root <= k ==> Inside(root, k)
  }

  lemma {:induction false} TargetsInside(root: string, creates: seq<Workload>, k: string)
    requires root != "" && k in Targets(root, creates)
    ensures Inside(root, k)
  {
    var i :| 0 <= i < |creates| && Destination(root, creates[i]) == k;
    if creates[i].filepath != "" {
      assert k == root + "/" + creates[i].filepath;
      assert root + "/" <= k;
    }
  }

  /** S3 performs the intended update exactly when no sibling object shares the bare prefix. */
  lemma S3RefinesIff(files: Files, path: string, dir: string, creates: seq<Workload>, deletes: seq<string>)
    requires TrimSlash(dir) != "" || dir == ""
    ensures S3Update(files, path, dir, creates, deletes) == UpdateFiles(files, path, dir, creates, deletes)
       <==> (dir != "" ==> NoSibling(files, PathJoin(path, TrimSlash(dir))))
  {
    var root := PathJoin(path, TrimSlash(dir));
    if dir == "" {
      assert files - Listed(path, deletes) == files - Listed(path, deletes) * files.Keys;
    } else {
      var inside := set k | k in files && Inside(root, k);
      if NoSibling(files, root) {
        assert ObjectsWithPrefix(files, root) == inside;
      } else {
        var k :| k in files && root <= k && !Inside(root, k);
        WriteAllLooksUp(files - inside, root, creates, k);
        WriteAllLooksUp(files - ObjectsWithPrefix(files, root), root, creates, k);
        if k in Targets(root, creates) {
          TargetsInside(root, creates, k);
        }
      }
    }
  }

  /** No file that stays lies in a listed path: those that do are listed themselves or rewritten. */
  predicate NoListedDirectory(files: Files, path: string, creates: seq<Workload>, deletes: seq<string>) {
    forall k :: k in files && BelowListed(path, deletes, k) ==> k in Listed(path, deletes) || k in Targets(path, creates)
  }

  lemma ListedIsBelow(path: string, deletes: seq<string>, k: string)
    requires k in Listed(path, deletes)
    ensures BelowListed(path, deletes, k)
  {
    var i :| 0 <= i < |deletes| && PathJoin(path, deletes[i]) == k;
    assert Inside(PathJoin(path, deletes[i]), k);
  }

  /** Two removals before the same writes come to the same exactly when they differ in files that
      are written anyway. */
  lemma SameAfterWriteIff(files: Files, a: set<string>, b: set<string>, root: string, creates: seq<Workload>)
    requires a <= b
    ensures WriteAll(files - a, root, creates) == WriteAll(files - b, root, creates)
      <==> forall k :: k in files && k in b && k !in a ==> k in Targets(root, creates)
  {
    var x, y := WriteAll(files - a, root, creates), WriteAll(files - b, root, creates);
    forall k
      ensures k in x <==> (k in files && k !in a) || k in Targets(root, creates)
      ensures k in y <==> (k in files && k !in b) || k in Targets(root, creates)
      ensures k in x && k in y ==> x[k] == y[k]
    {
      WriteAllLooksUp(files - a, root, creates, k);
      WriteAllLooksUp(files - b, root, creates, k);
      if k in Targets(root, creates) {
        WriteAllAgrees(files - a, files - b, root, creates, k);
      }
    }
    if x == y {
      forall k | k in files && k in b && k !in a
        ensures k in Targets(root, creates)
      {
        assert k in x;
      }
    }
  }

  /** Git performs the intended update exactly when a tree can hold the result and no listed path is
      a directory with files that should stay. */
  lemma GitRefinesIff(files: Files, path: string, dir: string, creates: seq<Workload>, deletes: seq<string>)
    ensures GitUpdate(files, path, dir, creates, deletes) == Some(UpdateFiles(files, path, dir, creates, deletes))
      <==> && IsTree(UpdateFiles(files, path, dir, creates, deletes))
           && (dir == "" ==> NoListedDirectory(files, path, creates, deletes))
  {
    if dir == "" {
      var exact, below := Listed(path, deletes) * files.Keys, GitDoomed(files, path, dir, deletes);
      forall k | k in exact
        ensures k in below
      {
        ListedIsBelow(path, deletes, k);
      }
      assert TrimSlash("") == "" && PathJoin(path, "") == path;
      assert files - Listed(path, deletes) == files - exact;
      SameAfterWriteIff(files, exact, below, path, creates);
    }
  }

  /** Both writers end with the same files exactly when a Git tree can hold them, no sibling object
      shares a replaced directory's prefix, and no listed path is a directory with files to keep. */
  lemma WritersAgreeIff(files: Files, path: string, dir: string, creates: seq<Workload>, deletes: seq<string>)
    requires TrimSlash(dir) != "" || dir == ""
    ensures GitUpdate(files, path, dir, creates, deletes) == Some(S3Update(files, path, dir, creates, deletes))
      <==> && IsTree(S3Update(files, path, dir, creates, deletes))
           && (if dir != "" then NoSibling(files, PathJoin(path, TrimSlash(dir)))
               else NoListedDirectory(files, path, creates, deletes))
  {
    S3RefinesIff(files, path, dir, creates, deletes);
    if dir == "" {
      GitRefinesIff(files, path, dir, creates, deletes);
    }
  }

  /** A listed path that has become a directory takes its files with it on Git, and not on S3. */
  lemma ListedDirectoryIsLost()
    ensures var files := map["a/b" := "keep me"];
      GitUpdate(files, "", "", [], ["a"]) == Some(map[]) && S3Update(files, "", "", [], ["a"]) == files
  {
    var files: Files := map["a/b" := "keep me"];
    assert "a/b" == "a" + "/" + "b" && Inside(PathJoin("", ["a"][0]), "a/b");
    assert GitDoomed(files, "", "", ["a"]) == {"a/b"};
    assert files - {"a/b"} == map[];
    assert S3Doomed(files, "", "", ["a"]) == {};
  }

  /** A file that merely starts with the directory's name is lost on S3 and kept on Git. */
  lemma SiblingIsLost()
    ensures var files := map["dependencies/p/q/abcde-notes" := "keep me"];
      && "dependencies/p/q/abcde-notes" in UpdateFiles(files, "", "dependencies/p/q/abcde", [], [])
      && "dependencies/p/q/abcde-notes" !in S3Update(files, "", "dependencies/p/q/abcde", [], [])
  {
    var root, key := "dependencies/p/q/abcde", "dependencies/p/q/abcde-notes";
    assert key[|root|] == '-' && (root + "/")[|root|] == '/';
    assert key[..|root|] == root;
    assert TrimSlash(root) == root;
    assert PathJoin("", root) == root;
  }

  // ------------------------------------------------------- interrupted S3

  /** However far an interrupted S3 update of a directory got, one undisturbed retry ends where an
      undisturbed first attempt would have ended. */
  lemma DirectoryRetryConverges(before: Files, partial: Files, path: string, dir: string, creates: seq<Workload>)
    requires TrimSlash(dir) != ""
    requires var root := PathJoin(path, TrimSlash(dir));
      forall k :: !(root <= k) ==> (k in before <==> k in partial) && (k in before ==> before[k] == partial[k])
    ensures S3Update(partial, path, dir, creates, []) == S3Update(before, path, dir, creates, [])
  {
    var root := PathJoin(path, TrimSlash(dir));
    assert before - ObjectsWithPrefix(before, root) == partial - ObjectsWithPrefix(partial, root);
  }

  /** Every state an S3 update can stop in satisfies the premise of `DirectoryRetryConverges`. */
  lemma InterruptedStaysInside(before: Files, path: string, dir: string, creates: seq<Workload>, written: nat, stuck: set<string>, k: string)
    requires TrimSlash(dir) != "" && written <= |creates|
    requires var root := PathJoin(path, TrimSlash(dir)); !(root <= k)
    ensures var root := PathJoin(path, TrimSlash(dir));
      var a := WriteAll(before, root, creates[..written]);
      var b := S3Interrupted(before, path, dir, creates, [], stuck);
      && (k in a <==> k in before) && (k in before ==> a[k] == before[k])
      && (k in b <==> k in before) && (k in before ==> b[k] == before[k])
  {
    var root := PathJoin(path, TrimSlash(dir));
    WriteAllLooksUp(before, root, creates[..written], k);
    WriteAllLooksUp(before, root, creates, k);
    if k in Targets(root, creates[..written]) {
      TargetsInside(root, creates[..written], k);
    }
    if k in Targets(root, creates) {
      TargetsInside(root, creates, k);
    }
  }
}
