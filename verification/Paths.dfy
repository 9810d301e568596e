/** Where nested placements keep their files (getDir), and when the directories of two placements
    can interfere: exactly, for S3's bare string prefix and for Git's directory removal. */
module Paths {
  import opened Writers

  /** What getDir reads off a WorkPlacement.  A static dependency has no pipeline name. */
  datatype Placed =
    | Dependency(promise: string, pipeline: string, id: string)
    | Resource(namespace: string, promise: string, resource: string, pipeline: string, id: string)

  predicate Component(s: string) {
    s != "" && '/' !in s
  }

  predicate WellNamed(p: Placed) {
    && Component(p.promise)
    && (p.pipeline == "" || Component(p.pipeline))
    && |p.id| >= 5 && '/' !in p.id
    && (p.Resource? ==> Component(p.namespace) && Component(p.resource))
  }

  function ShortID(id: string): string
    requires |id| >= 5
  {
    id[0..5]
  }

  /** filepath.Join of non-empty components. */
  function Join(parts: seq<string>): string
    requires parts != []
  {
    if |parts| == 1 then parts[0] else parts[0] + "/" + Join(parts[1..])
  }

  /** The components above the pipeline. */
  function Parents(p: Placed): seq<string> {
    match p
    case Dependency(promise, _, _) => ["dependencies", promise]
    case Resource(namespace, promise, resource, _, _) => ["resources", namespace, promise, resource]
  }

  /** filepath.Join drops an empty pipeline name. */
  function Leaf(p: Placed): seq<string>
    requires WellNamed(p)
  {
    (if p.pipeline == "" then [] else [p.pipeline]) + [ShortID(p.id)]
  }

  function GetDir(p: Placed): string
    requires WellNamed(p)
  {
    Join(Parents(p) + Leaf(p))
  }

  /** The full path of a placement's file. */
  function FileOf(p: Placed, file: string): string
    requires WellNamed(p)
  {
    GetDir(p) + "/" + file
  }

  /** Dependencies of one Promise, or placements of one resource request. */
  predicate SameParents(a: Placed, b: Placed) {
    && (a.Dependency? <==> b.Dependency?)
    && a.promise == b.promise
    && (a.Resource? && b.Resource? ==> a.namespace == b.namespace && a.resource == b.resource)
  }

  lemma ParentsAgree(a: Placed, b: Placed)
    requires a.Dependency? <==> b.Dependency?
    ensures Parents(a) == Parents(b) <==> SameParents(a, b)
  {
    var x, y := Parents(a), Parents(b);
    if x == y {
      assert x[1] == y[1];
      if a.Resource? {
        assert x[2] == y[2] && x[3] == y[3];
      }
    }
  }

  /** A write or delete of `a` on S3 hits file `file` of `b`. */
  predicate S3Hits(a: Placed, b: Placed, file: string)
    requires WellNamed(a) && WellNamed(b)
  {
    GetDir(a) <= FileOf(b, file)
  }

  predicate GitHits(a: Placed, b: Placed, file: string)
    requires WellNamed(a) && WellNamed(b)
  {
    Inside(GetDir(a), FileOf(b, file))
  }

  predicate SameDirectory(a: Placed, b: Placed)
    requires WellNamed(a) && WellNamed(b)
  {
    SameParents(a, b) && a.pipeline == b.pipeline && ShortID(a.id) == ShortID(b.id)
  }

  /** The only way two different directories meet on S3: exactly one of the two placements has no
      pipeline name, and the shorter directory's last component starts the other one's path. */
  predicate S3Clash(a: Placed, b: Placed, file: string)
    requires WellNamed(a) && WellNamed(b)
  {
    && SameParents(a, b)
    && (|| (a.pipeline == "" && b.pipeline != "" && ShortID(a.id) <= b.pipeline)
        || (a.pipeline != "" && b.pipeline == "" && a.pipeline == ShortID(b.id) && ShortID(a.id) <= file))
  }

  predicate GitClash(a: Placed, b: Placed, file: string)
    requires WellNamed(a) && WellNamed(b)
  {
    && SameParents(a, b)
    && (|| (a.pipeline == "" && b.pipeline != "" && ShortID(a.id) == b.pipeline)
        || (a.pipeline != "" && b.pipeline == "" && a.pipeline == ShortID(b.id) && Inside(ShortID(a.id), file)))
  }

  // ------------------------------------------------------ strings with '/'

  lemma HeadsAgree(x: string, y: string, s: string, t: string)
    requires '/' !in x && '/' !in y
    ensures x + "/" + s <= y + "/" + t <==> x == y && s <= t
  {
    var a, b := x + "/" + s, y + "/" + t;
    assert a[|x|] == '/' && b[|y|] == '/';
    assert forall i :: 0 <= i < |x| ==> a[i] == x[i] != '/';
    assert forall i :: 0 <= i < |y| ==> b[i] == y[i] != '/';
    if a <= b {
      assert x == a[..|x|] == b[..|x|] == y;
      assert s == a[|x| + 1..] && t == b[|x| + 1..];
    }
    if x == y && s <= t {
      assert t == s + t[|s|..];
      assert b == a + t[|s|..];
    }
  }

  lemma BareHead(x: string, y: string, t: string)
    requires '/' !in x && '/' !in y
    ensures x <= y + "/" + t <==> x <= y
  {
    var b := y + "/" + t;
    assert b[|y|] == '/';
    assert forall i :: 0 <= i < |x| ==> x[i] != '/';
    assert |x| <= |y| ==> b[..|x|] == y[..|x|];
  }

  predicate AllComponents(parts: seq<string>) {
    forall i :: 0 <= i < |parts| ==> Component(parts[i])
  }

  /** Equal parents can be cut off both sides of a prefix test. */
  lemma {:induction false} CutParents(p: seq<string>, q: seq<string>, a: seq<string>, rest: string)
    requires AllComponents(p) && AllComponents(q) && AllComponents(a) && |p| == |q| && a != []
    ensures Join(p + a) <= Prefixed(q, rest) <==> p == q && Join(a) <= rest
    decreases |p|
  {
    if p == [] {
      assert p + a == a;
    } else {
      CutParents(p[1..], q[1..], a, rest);
      assert (p + a)[1..] == p[1..] + a && (p + a)[0] == p[0];
      HeadsAgree(p[0], q[0], Join(p[1..] + a), Prefixed(q[1..], rest));
      assert Prefixed(q, rest) == q[0] + "/" + Prefixed(q[1..], rest);
      assert Join(p + a) == p[0] + "/" + Join(p[1..] + a);
      assert p == q <==> p[0] == q[0] && p[1..] == q[1..] by {
        assert p == [p[0]] + p[1..] && q == [q[0]] + q[1..];
      }
    }
  }

  /** `parts[0]/parts[1]/.../rest` */
  function Prefixed(parts: seq<string>, rest: string): string {
    if parts == [] then rest else parts[0] + "/" + Prefixed(parts[1..], rest)
  }

  lemma {:induction false} JoinThenFile(parts: seq<string>, more: seq<string>, file: string)
    requires more != []
    ensures Join(parts + more) + "/" + file == Prefixed(parts, Join(more) + "/" + file)
    decreases |parts|
  {
    if parts == [] {
      assert parts + more == more;
    } else {
      JoinThenFile(parts[1..], more, file);
      assert (parts + more)[1..] == parts[1..] + more;
      assert Join(parts + more) + "/" + file == parts[0] + "/" + (Join(parts[1..] + more) + "/" + file);
    }
  }

  // ------------------------------------------------------------- theorems

  lemma LeafHits(a: Placed, b: Placed, file: string)
    requires WellNamed(a) && WellNamed(b)
    ensures Join(Leaf(a)) <= Join(Leaf(b)) + "/" + file <==>
      || (a.pipeline == b.pipeline && ShortID(a.id) == ShortID(b.id))
      || (a.pipeline == "" && b.pipeline != "" && ShortID(a.id) <= b.pipeline)
      || (a.pipeline != "" && b.pipeline == "" && a.pipeline == ShortID(b.id) && ShortID(a.id) <= file)
  {
    var x, y := ShortID(a.id), ShortID(b.id);
    if a.pipeline == "" {
      assert Leaf(a) == [x];
      if b.pipeline == "" {
        assert Leaf(b) == [y];
        BareHead(x, y, file);
      } else {
        assert Leaf(b) == [b.pipeline, y] && Leaf(b)[1..] == [y];
        assert Join(Leaf(b)) + "/" + file == b.pipeline + "/" + (y + "/" + file);
        BareHead(x, b.pipeline, y + "/" + file);
      }
    } else {
      assert Leaf(a) == [a.pipeline, x] && Leaf(a)[1..] == [x];
      assert Join(Leaf(a)) == a.pipeline + "/" + x;
      if b.pipeline == "" {
        assert Leaf(b) == [y];
        HeadsAgree(a.pipeline, y, x, file);
      } else {
        assert Leaf(b) == [b.pipeline, y] && Leaf(b)[1..] == [y];
        assert Join(Leaf(b)) + "/" + file == b.pipeline + "/" + (y + "/" + file);
        HeadsAgree(a.pipeline, b.pipeline, x, y + "/" + file);
        BareHead(x, y, file);
      }
    }
  }

  /** Everything of a Promise's dependencies, and of one resource request, is below one directory. */
  lemma Layout(p: Placed, file: string)
    requires WellNamed(p)
    ensures match p
      case Dependency(promise, _, _) => "dependencies/" + promise + "/" <= FileOf(p, file)
      case Resource(namespace, promise, resource, _, _) =>
        "resources/" + namespace + "/" + promise + "/" + resource + "/" <= FileOf(p, file)
  {
    LayoutFrom(p, Join(Leaf(p)) + "/" + file);
    JoinThenFile(Parents(p), Leaf(p), file);
  }

  lemma LayoutFrom(p: Placed, rest: string)
    ensures match p
      case Dependency(promise, _, _) => "dependencies/" + promise + "/" <= Prefixed(Parents(p), rest)
      case Resource(namespace, promise, resource, _, _) =>
        "resources/" + namespace + "/" + promise + "/" + resource + "/" <= Prefixed(Parents(p), rest)
  {
    match p
    case Dependency(promise, _, _) => PrefixedTwo("dependencies", promise, rest);
    case Resource(namespace, promise, resource, _, _) => PrefixedFour("resources", namespace, promise, resource, rest);
  }

  lemma PrefixedTwo(a: string, b: string, rest: string)
    ensures Prefixed([a, b], rest) == a + "/" + b + "/" + rest
  {
    assert [a, b][1..] == [b] && [b][1..] == [];
    assert Prefixed([b], rest) == b + "/" + Prefixed([], rest);
    assert Prefixed([a, b], rest) == a + "/" + (b + "/" + rest);
  }

  lemma PrefixedFour(a: string, b: string, c: string, d: string, rest: string)
    ensures Prefixed([a, b, c, d], rest) == a + "/" + b + "/" + c + "/" + d + "/" + rest
  {
    assert [a, b, c, d][1..] == [b, c, d] && [b, c, d][1..] == [c, d];
    PrefixedTwo(c, d, rest);
    assert Prefixed([b, c, d], rest) == b + "/" + Prefixed([c, d], rest);
    assert Prefixed([a, b, c, d], rest) == a + "/" + (b + "/" + (c + "/" + d + "/" + rest));
  }

  lemma FamiliesApart(a: Placed, b: Placed, file: string)
    requires WellNamed(a) && WellNamed(b) && a.Dependency? != b.Dependency?
    ensures !S3Hits(a, b, file) && !GitHits(a, b, file)
  {
    var pa, pb := Parents(a) + Leaf(a), Parents(b) + Leaf(b);
    assert GetDir(a) == pa[0] + "/" + Join(pa[1..]);
    assert FileOf(b, file) == pb[0] + "/" + (Join(pb[1..]) + "/" + file);
    HeadsAgree(pa[0], pb[0], Join(pa[1..]), Join(pb[1..]) + "/" + file);
    if Inside(GetDir(a), FileOf(b, file)) {
      InsideIsPrefix(GetDir(a), FileOf(b, file));
    }
  }

  /** On S3, a write or delete of one nested placement reaches another placement's file exactly
      when they share a directory or clash through a missing pipeline name.  The fixed length of
      the short ID is what keeps the bare prefix from matching a longer sibling. */
  lemma S3HitsIff(a: Placed, b: Placed, file: string)
    requires WellNamed(a) && WellNamed(b)
    ensures S3Hits(a, b, file) <==> SameDirectory(a, b) || S3Clash(a, b, file)
  {
    if a.Dependency? != b.Dependency? {
      FamiliesApart(a, b, file);
    } else {
      ParentsAgree(a, b);
      JoinThenFile(Parents(b), Leaf(b), file);
      CutParents(Parents(a), Parents(b), Leaf(a), Join(Leaf(b)) + "/" + file);
      LeafHits(a, b, file);
    }
  }

  lemma InsideCut(x: string, y: string, s: string, t: string)
    requires '/' !in x && '/' !in y
    ensures Inside(x + "/" + s, y + "/" + t) <==> x == y && Inside(s, t)
  {
    HeadsAgree(x, y, s + "/", t);
    assert x + "/" + s + "/" == x + "/" + (s + "/");
    HeadsAgree(x, y, s, t);
    HeadsAgree(y, x, t, s);
    assert x == y && s == t <==> x + "/" + s == y + "/" + t;
  }

  lemma InsideHead(x: string, y: string, t: string)
    requires '/' !in x && '/' !in y
    ensures Inside(x, y + "/" + t) <==> x == y
  {
    HeadsAgree(x, y, "", t);
    assert x + "/" + "" == x + "/";
    assert (y + "/" + t)[|y|] == '/';
  }

  lemma {:induction false} CutParentsInside(p: seq<string>, q: seq<string>, a: seq<string>, rest: string)
    requires AllComponents(p) && AllComponents(q) && AllComponents(a) && |p| == |q| && a != []
    ensures Inside(Join(p + a), Prefixed(q, rest)) <==> p == q && Inside(Join(a), rest)
    decreases |p|
  {
    if p == [] {
      assert p + a == a;
    } else {
      CutParentsInside(p[1..], q[1..], a, rest);
      assert (p + a)[1..] == p[1..] + a && (p + a)[0] == p[0];
      InsideCut(p[0], q[0], Join(p[1..] + a), Prefixed(q[1..], rest));
      assert p == q <==> p[0] == q[0] && p[1..] == q[1..] by {
        assert p == [p[0]] + p[1..] && q == [q[0]] + q[1..];
      }
    }
  }

  lemma LeafInside(a: Placed, b: Placed, file: string)
    requires WellNamed(a) && WellNamed(b)
    ensures Inside(Join(Leaf(a)), Join(Leaf(b)) + "/" + file) <==>
      || (a.pipeline == b.pipeline && ShortID(a.id) == ShortID(b.id))
      || (a.pipeline == "" && b.pipeline != "" && ShortID(a.id) == b.pipeline)
      || (a.pipeline != "" && b.pipeline == "" && a.pipeline == ShortID(b.id) && Inside(ShortID(a.id), file))
  {
    var x, y := ShortID(a.id), ShortID(b.id);
    if a.pipeline == "" {
      assert Leaf(a) == [x];
      if b.pipeline == "" {
        assert Leaf(b) == [y];
        InsideHead(x, y, file);
      } else {
        assert Leaf(b) == [b.pipeline, y] && Leaf(b)[1..] == [y];
        assert Join(Leaf(b)) + "/" + file == b.pipeline + "/" + (y + "/" + file);
        InsideHead(x, b.pipeline, y + "/" + file);
      }
    } else {
      assert Leaf(a) == [a.pipeline, x] && Leaf(a)[1..] == [x];
      assert Join(Leaf(a)) == a.pipeline + "/" + x;
      if b.pipeline == "" {
        assert Leaf(b) == [y];
        InsideCut(a.pipeline, y, x, file);
      } else {
        assert Leaf(b) == [b.pipeline, y] && Leaf(b)[1..] == [y];
        assert Join(Leaf(b)) + "/" + file == b.pipeline + "/" + (y + "/" + file);
        InsideCut(a.pipeline, b.pipeline, x, y + "/" + file);
        InsideHead(x, y, file);
      }
    }
  }

  /** The same for Git, where whole components have to match. */
  lemma GitHitsIff(a: Placed, b: Placed, file: string)
    requires WellNamed(a) && WellNamed(b)
    ensures GitHits(a, b, file) <==> SameDirectory(a, b) || GitClash(a, b, file)
  {
    if a.Dependency? != b.Dependency? {
      FamiliesApart(a, b, file);
    } else {
      ParentsAgree(a, b);
      JoinThenFile(Parents(b), Leaf(b), file);
      CutParentsInside(Parents(a), Parents(b), Leaf(a), Join(Leaf(b)) + "/" + file);
      LeafInside(a, b, file);
    }
  }

  /** Placements of one destination that both come from pipelines, in different directories. */
  predicate Separate(a: Placed, b: Placed) {
    WellNamed(a) && WellNamed(b) && !SameDirectory(a, b) && (a.pipeline == "" <==> b.pipeline == "")
  }

  /** Below a common base path nothing changes about prefixes. */
  lemma UnderBase(path: string, root: string, key: string)
    requires root != "" && key != ""
    ensures PathJoin(path, root) <= PathJoin(path, key) <==> root <= key
    ensures Inside(PathJoin(path, root), PathJoin(path, key)) <==> Inside(root, key)
  {
    if path != "" {
      var base := path + "/";
      assert PathJoin(path, root) == base + root && PathJoin(path, key) == base + key;
      AfterBase(base, root, key);
      AfterBase(base, root + "/", key);
      assert base + root + "/" == base + (root + "/");
      assert base + root == base + key <==> root == key by {
        assert (base + root)[|base|..] == root && (base + key)[|base|..] == key;
      }
    }
  }

  lemma AfterBase(base: string, s: string, t: string)
    ensures base + s <= base + t <==> s <= t
  {
    if base + s <= base + t {
      assert s == (base + s)[|base|..] && t == (base + t)[|base|..];
    }
    if s <= t {
      assert base + t == (base + s) + t[|s|..];
    }
  }

  lemma GetDirShape(p: Placed)
    requires WellNamed(p)
    ensures GetDir(p) != "" && TrimSlash(GetDir(p)) == GetDir(p) && TrimSlash(GetDir(p) + "/") == GetDir(p)
  {
    var parts := Parents(p) + Leaf(p);
    JoinEnd(parts);
    assert parts[|parts| - 1] == ShortID(p.id);
  }

  lemma {:induction false} JoinEnd(parts: seq<string>)
    requires parts != [] && parts[|parts| - 1] != ""
    ensures var last := parts[|parts| - 1];
      Join(parts) != "" && Join(parts)[|Join(parts)| - 1] == last[|last| - 1]
  {
    if |parts| > 1 {
      JoinEnd(parts[1..]);
    }
  }

  /** The directories of separate placements have no path in common. */
  lemma NestedTerritories(a: Placed, b: Placed, key: string)
    requires Separate(a, b)
    ensures !(Inside(GetDir(a), key) && Inside(GetDir(b), key))
  {
    if Inside(GetDir(a), key) && Inside(GetDir(b), key) {
      var below := key + "/x";
      BelowToo(GetDir(a), key);
      BelowToo(GetDir(b), key);
      var file := below[|GetDir(b)| + 1..];
      assert below == FileOf(b, file);
      GitHitsIff(a, b, file);
      assert false;
    }
  }

  lemma BelowToo(root: string, key: string)
    requires Inside(root, key)
    ensures root + "/" <= key + "/x"
  {
    var below := key + "/x";
    if key == root {
      assert below[..|root| + 1] == root + "/";
    } else {
      assert below[..|root| + 1] == key[..|root| + 1] == root + "/";
    }
  }

  /** Writing or deleting one nested placement, on either store, leaves every file of every
      separate placement exactly as it was. */
  lemma NestedUpdateIsFramed(files: Files, path: string, a: Placed, creates: seq<Workload>, b: Placed, file: string)
    requires Separate(a, b) && file != ""
    ensures var k := PathJoin(path, FileOf(b, file));
      var s3, git := S3Update(files, path, GetDir(a), creates, []), UpdateFiles(files, path, GetDir(a), creates, []);
      && (k in s3 <==> k in files) && (k in files ==> s3[k] == files[k])
      && (k in git <==> k in files) && (k in files ==> git[k] == files[k])
  {
    var dir, key := GetDir(a), FileOf(b, file);
    var root, k := PathJoin(path, dir), PathJoin(path, key);
    GetDirShape(a);
    S3HitsIff(a, b, file);
    GitHitsIff(a, b, file);
    UnderBase(path, dir, key);
    if k in Targets(root, creates) {
      TargetsInside(root, creates, k);
    }
    WriteAllLooksUp(files - S3Doomed(files, path, dir, []), root, creates, k);
    WriteAllLooksUp(files - (set x | x in files && Inside(root, x)), root, creates, k);
  }

  /** Without a pipeline name, the short ID is a bare prefix of every pipeline name that starts so. */
  lemma DependencyClash(promise: string, id: string, pipeline: string, id': string, file: string)
    requires WellNamed(Dependency(promise, "", id)) && WellNamed(Dependency(promise, pipeline, id'))
    requires pipeline != "" && ShortID(id) < pipeline
    ensures var fixed, workflow := Dependency(promise, "", id), Dependency(promise, pipeline, id');
      !SameDirectory(fixed, workflow) && S3Hits(fixed, workflow, file) && !GitHits(fixed, workflow, file)
  {
    S3HitsIff(Dependency(promise, "", id), Dependency(promise, pipeline, id'), file);
    GitHitsIff(Dependency(promise, "", id), Dependency(promise, pipeline, id'), file);
  }

  /** The clash is real: the short ID of the static-dependency group is "5058f", so on S3 a write
      of a Promise's static dependencies removes the files of its pipeline "5058f-deploy". */
  lemma StaticDependencyClash(promise: string, id: string, id': string, file: string)
    requires Component(promise) && |id| >= 5 && ShortID(id) == "5058f" && '/' !in id && |id'| >= 5 && '/' !in id'
    ensures var fixed, workflow := Dependency(promise, "", id), Dependency(promise, "5058f-deploy", id');
      && WellNamed(fixed) && WellNamed(workflow)
      && !SameDirectory(fixed, workflow) && S3Hits(fixed, workflow, file) && !GitHits(fixed, workflow, file)
  {
    var pipeline := "5058f-deploy";
    assert pipeline[..5] == "5058f";
    DependencyClash(promise, id, pipeline, id', file);
  }
}
