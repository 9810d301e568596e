/** Destination selectors: squashing a Promise's list, sorting by source and overwriting
    (internal/controller/scheduler.go, api/v1alpha1/promise_types.go,
    work-creator/pipeline/work_creator.go). */
module Selectors {
  import opened Wrappers

  type Labels = map<string, string>

  /** The source strings "promise" and "promise-workflow", and every other one. */
  datatype Source = Promise | PromiseWorkflow | Other(name: string)

  datatype Scheduling = Scheduling(matchLabels: Labels, source: Source)

  /** The comparison handed to the stable sort. */
  predicate Less(a: Scheduling, b: Scheduling) {
    if a.source.Promise? then false
    else if b.source.Promise? then true
    else if a.source.PromiseWorkflow? then false
    else b.source.PromiseWorkflow?
  }

  /** The later a source is overwritten, the higher it ranks. */
  function Rank(source: Source): nat {
    match source
    case Promise => 2
    case PromiseWorkflow => 1
    case Other(_) => 0
  }

  function OfRank(s: seq<Scheduling>, rank: nat): seq<Scheduling> {
    if s == [] then []
    else
      var rest := OfRank(s[..|s| - 1], rank);
      if Rank(s[|s| - 1].source) == rank then rest + [s[|s| - 1]] else rest
  }

  /** The stable sort: other workflows first, then promise-workflow, then promise; the order within
      one source is kept. */
  function ByLowestPriority(s: seq<Scheduling>): seq<Scheduling> {
    OfRank(s, 0) + OfRank(s, 1) + OfRank(s, 2)
  }

  // ---------------------------------------------------------------- sorting

  /** Where a stable insertion puts `x`: behind everything it is not less than. */
  function Insert(s: seq<Scheduling>, x: Scheduling): seq<Scheduling> {
    if s == [] then [x]
    else if Less(x, s[|s| - 1]) then Insert(s[..|s| - 1], x) + [s[|s| - 1]]
    else s + [x]
  }

  predicate AllRank(s: seq<Scheduling>, rank: nat) {
    forall i :: 0 <= i < |s| ==> Rank(s[i].source) == rank
  }

  lemma {:induction false} OfRankIsRank(s: seq<Scheduling>, rank: nat)
    ensures AllRank(OfRank(s, rank), rank)
  {
    if s != [] {
      OfRankIsRank(s[..|s| - 1], rank);
    }
  }

  /** Insertion skips a tail of strictly higher rank. */
  lemma {:induction false} InsertSkips(a: seq<Scheduling>, b: seq<Scheduling>, x: Scheduling)
    requires forall i :: 0 <= i < |b| ==> Rank(b[i].source) > Rank(x.source)
    ensures Insert(a + b, x) == Insert(a, x) + b
  {
    if b == [] {
      assert a + b == a;
    } else {
      var front, last := b[..|b| - 1], b[|b| - 1];
      assert (a + b)[..|a + b| - 1] == a + front && (a + b)[|a + b| - 1] == last;
      InsertSkips(a, front, x);
      assert Insert(a + b, x) == Insert(a, x) + (front + [last]);
    }
  }

  lemma InsertBehind(a: seq<Scheduling>, x: Scheduling)
    requires a == [] || Rank(a[|a| - 1].source) <= Rank(x.source)
    ensures Insert(a, x) == a + [x]
  {
  }

  lemma InsertKeepsSorted(s: seq<Scheduling>, x: Scheduling)
    ensures Insert(ByLowestPriority(s), x) == ByLowestPriority(s + [x])
  {
    assert (s + [x])[..|s + [x]| - 1] == s;
    var a, b, d := OfRank(s, 0), OfRank(s, 1), OfRank(s, 2);
    OfRankIsRank(s, 0);
    OfRankIsRank(s, 1);
    OfRankIsRank(s, 2);
    if Rank(x.source) == 0 {
      assert a + b + d == a + (b + d);
      InsertSkips(a, b + d, x);
      InsertBehind(a, x);
      assert a + [x] + (b + d) == a + [x] + b + d;
    } else if Rank(x.source) == 1 {
      InsertSkips(a + b, d, x);
      InsertBehind(a + b, x);
      assert a + b + [x] == a + (b + [x]);
    } else {
      InsertBehind(a + b + d, x);
      assert a + b + d + [x] == a + b + (d + [x]);
    }
  }

  /** The selector list is sorted in place. */
  method SortByLowestPriority(a: array<Scheduling>)
    modifies a
    ensures a[..] == ByLowestPriority(old(a[..]))
  {
    var i := 0;
    while i < a.Length
      invariant 0 <= i <= a.Length
      invariant a[..i] == ByLowestPriority(old(a[..i]))
      invariant a[i..] == old(a[i..])
    {
      ghost var rest := a[i + 1..];
      SinkInto(a, i);
      InsertKeepsSorted(old(a[..i]), old(a[i]));
      assert old(a[..i]) + [old(a[i])] == old(a[..i + 1]);
      i := i + 1;
    }
    assert a[..i] == a[..] && old(a[..i]) == old(a[..]);
  }

  /** `x` stands at `j`, and everything of `p` from `j` on has moved up one place. */
  predicate Sunk(s: seq<Scheduling>, p: seq<Scheduling>, x: Scheduling, j: nat) {
    j <= |p| && s == p[..j] + [x] + p[j..]
  }

  lemma SinkStep(p: seq<Scheduling>, x: Scheduling, j: nat)
    requires 0 < j <= |p| && Less(x, p[j - 1]) && Insert(p, x) == Insert(p[..j], x) + p[j..]
    ensures Insert(p, x) == Insert(p[..j - 1], x) + p[j - 1..]
  {
    assert p[..j][..j - 1] == p[..j - 1] && p[j - 1..] == [p[j - 1]] + p[j..];
  }

  lemma SinkStart(s: seq<Scheduling>, p: seq<Scheduling>, x: Scheduling)
    requires s == p + [x]
    ensures Sunk(s, p, x, |p|) && Insert(p, x) == Insert(p[..|p|], x) + p[|p|..]
  {
    assert p[..|p|] == p && p[|p|..] == [];
  }

  lemma SunkAt(s: seq<Scheduling>, p: seq<Scheduling>, x: Scheduling, j: nat)
    requires Sunk(s, p, x, j)
    ensures |s| == |p| + 1 && s[j] == x && (j > 0 ==> s[j - 1] == p[j - 1])
  {
  }

  lemma SunkDown(s: seq<Scheduling>, p: seq<Scheduling>, x: Scheduling, j: nat)
    requires 0 < j < |s| && Sunk(s, p, x, j)
    ensures Sunk(s[j := s[j - 1]][j - 1 := s[j]], p, x, j - 1)
  {
    assert s[j := s[j - 1]][j - 1 := s[j]] == p[..j - 1] + [x] + p[j - 1..];
  }

  lemma SinkEnd(s: seq<Scheduling>, p: seq<Scheduling>, x: Scheduling, j: nat)
    requires Sunk(s, p, x, j) && (j > 0 ==> !Less(x, p[j - 1])) && Insert(p, x) == Insert(p[..j], x) + p[j..]
    ensures s == Insert(p, x)
  {
    assert j > 0 ==> p[..j][j - 1] == p[j - 1];
    assert Insert(p[..j], x) == p[..j] + [x];
  }

  method SinkInto(a: array<Scheduling>, i: nat)
    requires i < a.Length
    modifies a
    ensures a[..i + 1] == Insert(old(a[..i]), old(a[i]))
    ensures a[i + 1..] == old(a[i + 1..])
  {
    ghost var p, x := a[..i], a[i];
    var j := i;
    SinkStart(a[..i + 1], p, x);
    while j > 0 && Less(a[j], a[j - 1])
      invariant 0 <= j <= i
      invariant Sunk(a[..i + 1], p, x, j)
      invariant a[i + 1..] == old(a[i + 1..])
      invariant Insert(p, x) == Insert(p[..j], x) + p[j..]
    {
      SunkAt(a[..i + 1], p, x, j);
      SinkStep(p, x, j);
      SunkDown(a[..i + 1], p, x, j);
      Swap(a, i + 1, j);
      j := j - 1;
    }
    SunkAt(a[..i + 1], p, x, j);
    SinkEnd(a[..i + 1], p, x, j);
  }

  method Swap(a: array<Scheduling>, n: nat, j: nat)
    requires 0 < j < n <= a.Length
    modifies a
    ensures a[..n] == old(a[..n])[j := old(a[j - 1])][j - 1 := old(a[j])]
    ensures a[n..] == old(a[n..])
  {
    a[j], a[j - 1] := a[j - 1], a[j];
  }

  // -------------------------------------------------------------- resolving

  /** Each entry overwrites what came before it. */
  function Overwrite(s: seq<Scheduling>): Labels {
    if s == [] then map[] else Overwrite(s[..|s| - 1]) + s[|s| - 1].matchLabels
  }

  function Resolve(s: seq<Scheduling>): Labels {
    Overwrite(ByLowestPriority(s))
  }

  /** Writes the entries of `from` over `into`, key by key in any order. */
  method WriteOver(into: Labels, from: Labels) returns (r: Labels)
    ensures r == into + from
  {
    r := into;
    var todo := from.Keys;
    while todo != {}
      invariant todo <= from.Keys
      invariant r == into + (from - todo)
      decreases todo
    {
      var key :| key in todo;
      r := r[key := from[key]];
      todo := todo - {key};
    }
    assert from - todo == from;
  }

  /** resolveDestinationSelectorsForWorkloadGroup: sorts the group's own list, then overwrites. */
  method ResolveDestinationSelectors(a: array<Scheduling>) returns (r: Labels)
    modifies a
    ensures a[..] == ByLowestPriority(old(a[..]))
    ensures r == Resolve(old(a[..]))
  {
    SortByLowestPriority(a);
    r := map[];
    var i := 0;
    while i < a.Length
      invariant 0 <= i <= a.Length
      invariant a[..] == ByLowestPriority(old(a[..]))
      invariant r == Overwrite(a[..i])
    {
      assert a[..i + 1][..i] == a[..i];
      r := WriteOver(r, a[i].matchLabels);
      i := i + 1;
    }
    assert a[..i] == a[..];
  }

  lemma OverAssociates(a: Labels, b: Labels, c: Labels)
    ensures a + (b + c) == a + b + c
  {
  }

  lemma {:induction false} OverwriteSplit(a: seq<Scheduling>, b: seq<Scheduling>)
    ensures Overwrite(a + b) == Overwrite(a) + Overwrite(b)
  {
    if b == [] {
      assert a + b == a;
    } else {
      assert (a + b)[..|a + b| - 1] == a + b[..|b| - 1] && (a + b)[|a + b| - 1] == b[|b| - 1];
      OverwriteSplit(a, b[..|b| - 1]);
      OverAssociates(Overwrite(a), Overwrite(b[..|b| - 1]), b[|b| - 1].matchLabels);
    }
  }

  lemma ResolveByRank(s: seq<Scheduling>)
    ensures Resolve(s) == Overwrite(OfRank(s, 0)) + Overwrite(OfRank(s, 1)) + Overwrite(OfRank(s, 2))
  {
    OverwriteSplit(OfRank(s, 0) + OfRank(s, 1), OfRank(s, 2));
    OverwriteSplit(OfRank(s, 0), OfRank(s, 1));
  }

  predicate Offers(entry: Scheduling, key: string, rank: nat) {
    key in entry.matchLabels && Rank(entry.source) == rank
  }

  /** The last entry of a rank that offers the key, or -1. */
  function LastOffer(s: seq<Scheduling>, key: string, rank: nat): (i: int)
    ensures -1 <= i < |s|
    ensures i >= 0 ==> Offers(s[i], key, rank)
    ensures forall j :: i < j < |s| ==> !Offers(s[j], key, rank)
  {
    if s == [] then -1
    else if Offers(s[|s| - 1], key, rank) then |s| - 1
    else LastOffer(s[..|s| - 1], key, rank)
  }

  /** Within one rank a key has the value of the last entry that offers it. */
  lemma {:induction false} LastOfRankWins(s: seq<Scheduling>, key: string, rank: nat)
    ensures key in Overwrite(OfRank(s, rank)) <==> LastOffer(s, key, rank) >= 0
    ensures LastOffer(s, key, rank) >= 0 ==>
      Overwrite(OfRank(s, rank))[key] == s[LastOffer(s, key, rank)].matchLabels[key]
  {
    if s != [] {
      var front, n := s[..|s| - 1], |s| - 1;
      LastOfRankWins(front, key, rank);
      if Rank(s[n].source) == rank {
        assert OfRank(s, rank)[..|OfRank(s, rank)| - 1] == OfRank(front, rank);
      }
    }
  }

  /** Entry `i` decides `key`: no offer of a higher rank, no later offer of its own rank. */
  predicate Decides(s: seq<Scheduling>, key: string, i: int) {
    && 0 <= i < |s| && key in s[i].matchLabels
    && forall j :: 0 <= j < |s| && key in s[j].matchLabels ==>
      Rank(s[j].source) < Rank(s[i].source) || (Rank(s[j].source) == Rank(s[i].source) && j <= i)
  }

  /** Each key gets the value of the highest-ranked source and, within it, of the last entry. */
  lemma ResolveMeaning(s: seq<Scheduling>, key: string, i: int)
    requires Decides(s, key, i)
    ensures key in Resolve(s) && Resolve(s)[key] == s[i].matchLabels[key]
  {
    ResolveByRank(s);
    LastOfRankWins(s, key, 0);
    LastOfRankWins(s, key, 1);
    LastOfRankWins(s, key, 2);
    DecidesIsLast(s, key, i);
  }

  lemma DecidesIsLast(s: seq<Scheduling>, key: string, i: int)
    requires Decides(s, key, i)
    ensures LastOffer(s, key, Rank(s[i].source)) == i
    ensures forall rank: nat :: rank > Rank(s[i].source) ==> LastOffer(s, key, rank) == -1
  {
    assert Offers(s[i], key, Rank(s[i].source));
    forall rank: nat | rank > Rank(s[i].source)
      ensures LastOffer(s, key, rank) == -1
    {
      var l := LastOffer(s, key, rank);
      assert l >= 0 ==> Offers(s[l], key, rank);
    }
  }

  /** Some entry decides every key that any entry offers, and no other key is resolved. */
  lemma ResolveDomain(s: seq<Scheduling>, key: string)
    ensures key in Resolve(s) <==> exists i :: Decides(s, key, i)
    ensures (exists i :: 0 <= i < |s| && key in s[i].matchLabels) ==> exists i :: Decides(s, key, i)
  {
    ResolveByRank(s);
    LastOfRankWins(s, key, 0);
    LastOfRankWins(s, key, 1);
    LastOfRankWins(s, key, 2);
    var a, b, d := LastOffer(s, key, 0), LastOffer(s, key, 1), LastOffer(s, key, 2);
    var i := if d >= 0 then d else if b >= 0 then b else a;
    forall j | 0 <= j < |s| && key in s[j].matchLabels
      ensures Offers(s[j], key, Rank(s[j].source)) && Rank(s[j].source) <= 2
    {
    }
    if i >= 0 {
      assert Decides(s, key, i);
    }
  }

  // -------------------------------------------------------------- squashing

  /** The first entry that mentions a key decides it. */
  function FirstWins(s: seq<Labels>): Labels {
    if s == [] then map[] else FirstWins(s[1..]) + s[0]
  }

  lemma {:induction false} FirstWinsMeaning(s: seq<Labels>, key: string)
    ensures key in FirstWins(s) <==> exists i :: 0 <= i < |s| && key in s[i]
    ensures forall i :: 0 <= i < |s| && key in s[i] && (forall j :: 0 <= j < i ==> key !in s[j]) ==>
      FirstWins(s)[key] == s[i][key]
  {
    if s != [] {
      FirstWinsMeaning(s[1..], key);
      assert forall i :: 0 <= i < |s| - 1 ==> s[1..][i] == s[i + 1];
      if key in FirstWins(s[1..]) {
        var i :| 0 <= i < |s[1..]| && key in s[1..][i];
        assert key in s[i + 1];
      }
      forall i | 0 <= i < |s| && key in s[i] && (forall j :: 0 <= j < i ==> key !in s[j])
        ensures key in FirstWins(s) && FirstWins(s)[key] == s[i][key]
      {
        if i > 0 {
          assert key !in s[0];
          assert key in s[1..][i - 1];
          assert forall j :: 0 <= j < i - 1 ==> key !in s[1..][j];
        }
      }
    }
  }

  /** SquashPromiseScheduling: backwards, so that the first entry is written last. */
  method SquashPromiseScheduling(s: seq<Labels>) returns (r: Option<Labels>)
    ensures r == if s == [] then None else Some(FirstWins(s))
  {
    if |s| == 0 {
      return None;
    }
    var labels: Labels := map[];
    var i := |s| - 1;
    while i >= 0
      invariant -1 <= i < |s|
      invariant labels == FirstWins(s[i + 1..])
    {
      assert s[i..][1..] == s[i + 1..];
      labels := WriteOver(labels, s[i]);
      i := i - 1;
    }
    assert s[0..] == s;
    return Some(labels);
  }

  /** generateLabelSelectorsFromScheduling: forwards, merging each entry below what is there. */
  method GenerateLabelSelectors(s: seq<Labels>) returns (r: Labels)
    ensures r == FirstWins(s)
  {
    r := map[];
    var i := 0;
    while i < |s|
      invariant 0 <= i <= |s|
      invariant r == FirstWins(s[..i])
    {
      FirstWinsAppend(s[..i], s[i]);
      assert s[..i] + [s[i]] == s[..i + 1];
      r := s[i] + r;
      i := i + 1;
    }
    assert s[..i] == s;
  }

  lemma {:induction false} FirstWinsAppend(s: seq<Labels>, labels: Labels)
    ensures FirstWins(s + [labels]) == labels + FirstWins(s)
  {
    if s == [] {
      assert s + [labels] == [labels];
      assert [labels][1..] == [];
    } else {
      FirstWinsAppend(s[1..], labels);
      OverAssociates(labels, FirstWins(s[1..]), s[0]);
      assert (s + [labels])[1..] == s[1..] + [labels];
    }
  }

  // ------------------------------------------------------ the default group

  function LabelsFrom(s: seq<Scheduling>, source: Source): seq<Labels> {
    if s == [] then []
    else
      var rest := LabelsFrom(s[..|s| - 1], source);
      if s[|s| - 1].source == source then rest + [s[|s| - 1].matchLabels] else rest
  }

  /** The source an entry of the workflow's own selectors gets. */
  function WorkflowSource(workflowType: string): Source {
    if workflowType == "promise" then PromiseWorkflow else Other(workflowType + "-workflow")
  }

  /** The selectors Execute gives the default workload group. */
  function DefaultSelectors(workflowType: string, root: Option<Labels>, promise: seq<Scheduling>): seq<Scheduling> {
    (if root.Some? then [Scheduling(root.value, WorkflowSource(workflowType))] else []) +
    (if LabelsFrom(promise, PromiseWorkflow) != []
     then [Scheduling(FirstWins(LabelsFrom(promise, PromiseWorkflow)), PromiseWorkflow)] else []) +
    (if LabelsFrom(promise, Promise) != []
     then [Scheduling(FirstWins(LabelsFrom(promise, Promise)), Promise)] else [])
  }

  method BuildDefaultSelectors(workflowType: string, root: Option<Labels>, promise: seq<Scheduling>) returns (r: seq<Scheduling>)
    ensures r == DefaultSelectors(workflowType, root, promise)
  {
    r := if root.Some? then [Scheduling(root.value, WorkflowSource(workflowType))] else [];
    var p, pw := [], [];
    var i := 0;
    while i < |promise|
      invariant 0 <= i <= |promise|
      invariant p == LabelsFrom(promise[..i], Promise) && pw == LabelsFrom(promise[..i], PromiseWorkflow)
    {
      assert promise[..i + 1][..i] == promise[..i];
      if promise[i].source.Promise? {
        p := p + [promise[i].matchLabels];
      } else if promise[i].source.PromiseWorkflow? {
        pw := pw + [promise[i].matchLabels];
      }
      i := i + 1;
    }
    assert promise[..i] == promise;
    if |pw| > 0 {
      var squashed := SquashPromiseScheduling(pw);
      r := r + [Scheduling(squashed.value, PromiseWorkflow)];
    }
    if |p| > 0 {
      var squashed := SquashPromiseScheduling(p);
      r := r + [Scheduling(squashed.value, Promise)];
    }
  }

  /** The scheduler resolves the default group to the Promise's selectors, first entry wins, laid
      over promise-workflow selectors, first entry wins, laid over the workflow's root selectors. */
  lemma DefaultGroupResolves(workflowType: string, root: Option<Labels>, promise: seq<Scheduling>)
    ensures Resolve(DefaultSelectors(workflowType, root, promise)) ==
      (if root.Some? then root.value else map[])
      + FirstWins(LabelsFrom(promise, PromiseWorkflow))
      + FirstWins(LabelsFrom(promise, Promise))
  {
    var s := DefaultSelectors(workflowType, root, promise);
    var a := if root.Some? then [Scheduling(root.value, WorkflowSource(workflowType))] else [];
    var pw, p := LabelsFrom(promise, PromiseWorkflow), LabelsFrom(promise, Promise);
    var b := if pw != [] then [Scheduling(FirstWins(pw), PromiseWorkflow)] else [];
    var d := if p != [] then [Scheduling(FirstWins(p), Promise)] else [];
    assert s == a + b + d;
    AlreadySorted(a, b, d);
    OverwriteSplit(a + b, d);
    OverwriteSplit(a, b);
    OverwriteOne(a);
    OverwriteOne(b);
    OverwriteOne(d);
  }

  predicate OffersFrom(promise: seq<Scheduling>, source: Source, key: string, i: int) {
    0 <= i < |promise| && promise[i].source == source && key in promise[i].matchLabels
  }

  /** Entry `i` is the first of its source with the key. */
  predicate FirstFrom(promise: seq<Scheduling>, source: Source, key: string, i: int) {
    OffersFrom(promise, source, key, i) && forall j :: 0 <= j < i ==> !OffersFrom(promise, source, key, j)
  }

  lemma OffersOneMore(front: seq<Scheduling>, e: Scheduling, source: Source, key: string, i: int)
    ensures OffersFrom(front + [e], source, key, i) <==>
      OffersFrom(front, source, key, i) || (i == |front| && e.source == source && key in e.matchLabels)
  {
  }

  lemma FirstOneMore(front: seq<Scheduling>, e: Scheduling, source: Source, key: string, i: int)
    ensures FirstFrom(front + [e], source, key, i) <==>
      || FirstFrom(front, source, key, i)
      || (i == |front| && e.source == source && key in e.matchLabels && forall j :: !OffersFrom(front, source, key, j))
  {
    forall j
      ensures OffersFrom(front + [e], source, key, j) <==>
        OffersFrom(front, source, key, j) || (j == |front| && e.source == source && key in e.matchLabels)
    {
      OffersOneMore(front, e, source, key, j);
    }
  }

  /** The labels `r` hold for the key what the entries of this source say. */
  ghost predicate Holds(r: Labels, promise: seq<Scheduling>, source: Source, key: string) {
    && (key in r <==> exists i :: OffersFrom(promise, source, key, i))
    && (forall i :: FirstFrom(promise, source, key, i) ==> key in r && r[key] == promise[i].matchLabels[key])
  }

  lemma HoldsOneMore(r: Labels, front: seq<Scheduling>, e: Scheduling, source: Source, key: string)
    requires Holds(r, front, source, key)
    ensures Holds(if e.source == source then e.matchLabels + r else r, front + [e], source, key)
  {
    var all := front + [e];
    var r' := if e.source == source then e.matchLabels + r else r;
    forall i
      ensures FirstFrom(all, source, key, i) ==> key in r' && r'[key] == all[i].matchLabels[key]
    {
      FirstOneMore(front, e, source, key, i);
    }
    if i :| OffersFrom(front, source, key, i) {
      OffersOneMore(front, e, source, key, i);
    }
    if i :| OffersFrom(all, source, key, i) {
      OffersOneMore(front, e, source, key, i);
    }
    OffersOneMore(front, e, source, key, |front|);
  }

  lemma {:induction false} FirstOfSourceWins(promise: seq<Scheduling>, source: Source, key: string)
    ensures Holds(FirstWins(LabelsFrom(promise, source)), promise, source, key)
  {
    if promise != [] {
      var front, e := promise[..|promise| - 1], promise[|promise| - 1];
      assert promise == front + [e];
      FirstOfSourceWins(front, source, key);
      FirstWinsAppend(LabelsFrom(front, source), e.matchLabels);
      HoldsOneMore(FirstWins(LabelsFrom(front, source)), front, e, source, key);
    }
  }

  /** So a key of the default group has its value from the Promise's first entry for it, else from the
      first promise-workflow entry, else from the workflow's root selectors. */
  lemma DefaultGroupMeaning(workflowType: string, root: Option<Labels>, promise: seq<Scheduling>, key: string)
    ensures var r := Resolve(DefaultSelectors(workflowType, root, promise));
      var fromPromise := exists i :: OffersFrom(promise, Promise, key, i);
      var fromWorkflow := exists i :: OffersFrom(promise, PromiseWorkflow, key, i);
      && (key in r <==> fromPromise || fromWorkflow || (root.Some? && key in root.value))
      && (forall i :: FirstFrom(promise, Promise, key, i) ==> r[key] == promise[i].matchLabels[key])
      && (forall i :: !fromPromise && FirstFrom(promise, PromiseWorkflow, key, i) ==> r[key] == promise[i].matchLabels[key])
      && (!fromPromise && !fromWorkflow && key in r ==> r[key] == root.value[key])
  {
    DefaultGroupResolves(workflowType, root, promise);
    FirstOfSourceWins(promise, Promise, key);
    FirstOfSourceWins(promise, PromiseWorkflow, key);
  }

  lemma OverwriteOne(s: seq<Scheduling>)
    requires |s| <= 1
    ensures Overwrite(s) == if s == [] then map[] else s[0].matchLabels
  {
    if s != [] {
      assert s[..0] == [];
      assert Overwrite([]) == map[];
    }
  }

  lemma {:induction false} OfRankSplit(a: seq<Scheduling>, b: seq<Scheduling>, rank: nat)
    ensures OfRank(a + b, rank) == OfRank(a, rank) + OfRank(b, rank)
  {
    if b == [] {
      assert a + b == a;
    } else {
      assert (a + b)[..|a + b| - 1] == a + b[..|b| - 1] && (a + b)[|a + b| - 1] == b[|b| - 1];
      OfRankSplit(a, b[..|b| - 1], rank);
    }
  }

  lemma AlreadySorted(a: seq<Scheduling>, b: seq<Scheduling>, d: seq<Scheduling>)
    requires |a| <= 1 && |b| <= 1 && |d| <= 1
    requires a != [] ==> Rank(a[0].source) <= 1
    requires b != [] ==> b[0].source.PromiseWorkflow?
    requires d != [] ==> d[0].source.Promise?
    ensures ByLowestPriority(a + b + d) == a + b + d
  {
    forall rank: nat
      ensures OfRank(a + b + d, rank) == OfRank(a, rank) + OfRank(b, rank) + OfRank(d, rank)
    {
      OfRankSplit(a + b, d, rank);
      OfRankSplit(a, b, rank);
    }
    SingleRank(a);
    SingleRank(b);
    SingleRank(d);
  }

  lemma SingleRank(s: seq<Scheduling>)
    requires |s| <= 1
    ensures forall rank: nat :: OfRank(s, rank) == if s != [] && Rank(s[0].source) == rank then s else []
  {
    if s != [] {
      assert s[..0] == [] && s == [s[0]];
    }
  }
}
