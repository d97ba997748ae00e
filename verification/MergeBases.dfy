/**
 What a pull request shows of the commit graph: the commits it adds, the merge
 bases of its head and its base branch, and the state of the merge.
 */
module MergeBases {
  import opened Wrappers
  import opened Sorting
  import opened CommitGraph

  /******* Commits of a pull request *******/

  /** The commit as it is reported: the first line of its message, its author, its date. */
  datatype PullCommit = PullCommit(sha: Hash, message: string, author: string, date: int)

  function Report(commit: Commit): PullCommit {
    PullCommit(commit.hash, commit.title, commit.author, commit.date)
  }

  predicate Newer(a: PullCommit, b: PullCommit) {
    a.date > b.date || (a.date == b.date && a.sha <= b.sha)
  }

  /** A commit is stored under its own hash. */
  ghost predicate Addressed(store: Store) {
    forall h | h in store && store[h].decoded.Some? :: store[h].decoded.value.hash == h
  }

  ghost predicate Known(store: Store, commit: PullCommit) {
    Readable(store, commit.sha) && commit == Report(store[commit.sha].decoded.value)
  }

  /** The hashes of reported commits, in order. */
  function Hashes(commits: seq<PullCommit>): (r: seq<Hash>)
    ensures |r| == |commits|
  {
    seq(|commits|, i requires 0 <= i < |commits| => commits[i].sha)
  }

  /** Turns the map of a walk into a list; the order of a map range is arbitrary. */
  method Collect(store: Store, included: map<Hash, Commit>) returns (commits: seq<PullCommit>)
    requires Addressed(store)
    requires forall h | h in included :: Readable(store, h) && included[h] == store[h].decoded.value
    ensures Lists(Hashes(commits), included.Keys)
    ensures forall c | c in commits :: Known(store, c)
  {
    commits := [];
    var todo := included.Keys;
    while todo != {}
      invariant todo <= included.Keys
      invariant Lists(Hashes(commits), included.Keys - todo)
      invariant forall c | c in commits :: Known(store, c)
      decreases |todo|
    {
      var h :| h in todo;
      ghost var before := Hashes(commits);
      commits := commits + [Report(included[h])];
      assert Hashes(commits) == before + [h];
      todo := todo - {h};
    }
    assert included.Keys - todo == included.Keys;
  }

  /** Sorting the reports keeps every hash exactly once. */
  lemma ReportsPermute(a: seq<PullCommit>, b: seq<PullCommit>, keys: set<Hash>)
    requires Lists(Hashes(a), keys) && multiset(a) == multiset(b)
    ensures Lists(Hashes(b), keys)
    ensures forall c | c in b :: c in a
  {
    var elements := set c | c in a;
    forall i, j | 0 <= i < j < |a| ensures a[i] != a[j] {
      assert Hashes(a)[i] != Hashes(a)[j];
    }
    PermutationLists(a, b, elements);
    assert forall c | c in b :: c in elements;
    forall i, j | 0 <= i < j < |b| ensures Hashes(b)[i] != Hashes(b)[j] {
      assert b[i] in a && b[j] in a;
      var k :| 0 <= k < |a| && a[k] == b[i];
      var l :| 0 <= l < |a| && a[l] == b[j];
      assert Hashes(a)[k] != Hashes(a)[l];
    }
    forall h ensures h in Hashes(b) <==> h in keys {
      if h in Hashes(b) {
        var i :| 0 <= i < |b| && Hashes(b)[i] == h;
        assert b[i] in a;
        var k :| 0 <= k < |a| && a[k] == b[i];
        assert Hashes(a)[k] == h;
      }
      if h in keys {
        var k :| 0 <= k < |a| && Hashes(a)[k] == h;
        assert a[k] in elements;
        var i :| 0 <= i < |b| && b[i] == a[k];
        assert Hashes(b)[i] == h;
      }
    }
  }

  lemma NewerOrder()
    ensures Total(Newer) && Transitive(Newer)
  {
  }

  /** The commits that head has and mergeBase has not. */
  ghost predicate Since(store: Store, mergeBase: Hash, head: Hash, h: Hash) {
    Reaches(store, head, h) && !Reaches(store, mergeBase, h)
  }

  ghost predicate SinceSet(store: Store, mergeBase: Hash, head: Hash, commits: set<Hash>) {
    forall h :: h in commits <==> Since(store, mergeBase, head, h)
  }

  /** Those commits are few enough and small enough to walk. */
  ghost predicate SinceFits(store: Store, mergeBase: Hash, head: Hash) {
    exists commits :: WithinLimits(store, commits) && SinceSet(store, mergeBase, head, commits)
  }

  /** Stopping at the commits of mergeBase loses nothing and costs nothing: the walk
      succeeds if and only if the difference itself is within the limits. */
  lemma PrunedWalk(store: Store, mergeBase: Hash, head: Hash, excluded: set<Hash>)
    requires ReachableSet(store, mergeBase, {}, excluded)
    ensures forall h :: ReachesOutside(store, head, h, excluded) <==> Since(store, mergeBase, head, h)
    ensures Walkable(store, head, excluded) <==> SinceFits(store, mergeBase, head)
  {
    forall x ensures x in excluded <==> Reaches(store, mergeBase, x) {
      NothingExcluded(store, mergeBase, x);
    }
    forall h ensures ReachesOutside(store, head, h, excluded) <==> Since(store, mergeBase, head, h) {
      PruningIsDifference(store, head, mergeBase, excluded, h);
    }
    if commits :| WithinLimits(store, commits) && ReachableSet(store, head, excluded, commits) {
      assert SinceSet(store, mergeBase, head, commits);
    }
    if commits :| WithinLimits(store, commits) && SinceSet(store, mergeBase, head, commits) {
      assert ReachableSet(store, head, excluded, commits);
    }
  }

  /** commitsSince: each commit of head's history outside mergeBase's exactly
      once, newest first; an error exactly when the limits are exceeded or a
      commit cannot be read, and never a part of the answer. */
  method CommitsSince(store: Store, mergeBase: Hash, head: Hash) returns (r: Result<seq<PullCommit>, GraphError>)
    requires Addressed(store)
    ensures mergeBase == head ==> r == Ok([])
    ensures r.Ok? <==> mergeBase == head || (Walkable(store, mergeBase, {}) && SinceFits(store, mergeBase, head))
    ensures r.Ok? ==> forall h :: h in Hashes(r.value) <==> Since(store, mergeBase, head, h)
    ensures r.Ok? ==> forall i, j | 0 <= i < j < |r.value| :: r.value[i].sha != r.value[j].sha
    ensures r.Ok? ==> forall i, j | 0 <= i < j < |r.value| :: Newer(r.value[i], r.value[j])
    ensures r.Ok? ==> forall c | c in r.value :: Known(store, c)
    ensures r != Err(NoCommonHistory) && r != Err(TreeFailed)
  {
    if mergeBase == head {
      return Ok([]);
    }
    var excluded := ReachableCommits(store, mergeBase, map[]);
    if excluded.Err? {
      return Err(excluded.error);
    }
    PrunedWalk(store, mergeBase, head, excluded.value.Keys);
    var included := ReachableCommits(store, head, excluded.value);
    if included.Err? {
      return Err(included.error);
    }
    var collected := Collect(store, included.value);
    NewerOrder();
    var commits := Sort(Newer, collected);
    ReportsPermute(collected, commits, included.value.Keys);
    assert forall h :: h in included.value.Keys <==> Since(store, mergeBase, head, h);
    forall i, j | 0 <= i < j < |commits| ensures commits[i].sha != commits[j].sha {
      assert Hashes(commits)[i] != Hashes(commits)[j];
    }
    return Ok(commits);
  }

  /******* Merge bases *******/

  ghost predicate Common(store: Store, head: Hash, base: Hash, h: Hash) {
    Reaches(store, head, h) && Reaches(store, base, h)
  }

  /** A common ancestor that is not a proper ancestor of another one. */
  ghost predicate BestCommon(store: Store, head: Hash, base: Hash, h: Hash) {
    && Common(store, head, base, h)
    && forall c | Common(store, head, base, c) && Reaches(store, c, h) :: c == h
  }

  /** What the code tests: no common ancestor has it as a direct parent. */
  ghost predicate NoCommonChild(store: Store, head: Hash, base: Hash, h: Hash) {
    && Common(store, head, base, h)
    && forall c | Common(store, head, base, c) :: h !in Parents(store, c)
  }

  lemma CommonClosed(store: Store, head: Hash, base: Hash, c: Hash, h: Hash)
    requires Common(store, head, base, c) && Reaches(store, c, h)
    ensures Common(store, head, base, h)
  {
    ReachesTransitive(store, head, c, h);
    ReachesTransitive(store, base, c, h);
  }

  /** Testing direct parents is enough, because the common ancestors are closed under parents. */
  lemma DirectParentsSuffice(store: Store, head: Hash, base: Hash, h: Hash)
    requires Acyclic(store)
    ensures NoCommonChild(store, head, base, h) <==> BestCommon(store, head, base, h)
  {
    if NoCommonChild(store, head, base, h) {
      forall c | Common(store, head, base, c) && Reaches(store, c, h) ensures c == h {
        var path :| Connects(store, path, c, h);
        if |path| > 1 {
          var child := path[|path| - 2];
          assert Connects(store, path[..|path| - 1], c, child);
          CommonClosed(store, head, base, c, child);
        }
      }
    }
    if BestCommon(store, head, base, h) {
      forall c | Common(store, head, base, c) ensures h !in Parents(store, c) {
        if h in Parents(store, c) {
          assert Connects(store, [c, h], c, h);
        }
      }
    }
  }

  /** Among finitely many commits there is one that no other one of them reaches. */
  lemma {:induction false} MaximalExists(store: Store, commits: set<Hash>) returns (m: Hash)
    requires Acyclic(store) && commits != {}
    ensures m in commits && forall c | c in commits && Reaches(store, c, m) :: c == m
    decreases commits
  {
    var x :| x in commits;
    if commits == {x} {
      m := x;
    } else {
      var m' := MaximalExists(store, commits - {x});
      if Reaches(store, x, m') {
        m := x;
        forall c | c in commits && Reaches(store, c, x) ensures c == x {
          if c != x {
            ReachesTransitive(store, c, x, m');
            NoMutualAncestors(store, c, x);
          }
        }
      } else {
        m := m';
      }
    }
  }

  lemma BasesAreBest(store: Store, head: Hash, base: Hash, common: set<Hash>, bases: seq<Hash>)
    requires Acyclic(store)
    requires forall h :: h in common <==> Common(store, head, base, h)
    requires forall h :: h in bases <==> NoCommonChild(store, head, base, h)
    ensures forall h :: h in bases <==> BestCommon(store, head, base, h)
    ensures bases != [] <==> exists h :: Common(store, head, base, h)
  {
    forall h ensures h in bases <==> BestCommon(store, head, base, h) {
      DirectParentsSuffice(store, head, base, h);
    }
    if common != {} {
      var m := MaximalExists(store, common);
      assert BestCommon(store, head, base, m);
      assert m in bases;
    } else {
      assert bases != [] ==> bases[0] in bases;
    }
  }

  predicate Ascending(a: Hash, b: Hash) { a <= b }

  lemma AscendingOrder()
    ensures Total(Ascending) && Transitive(Ascending)
  {
  }

  lemma ChosenHaveNoChild(store: Store, head: Hash, base: Hash, common: map<Hash, Commit>, ancestors: set<Hash>,
      chosen: set<Hash>, sorted: seq<Hash>)
    requires forall h :: h in common <==> Common(store, head, base, h)
    requires forall c | c in common :: common[c].parents == Parents(store, c)
    requires forall h :: h in ancestors <==> exists c :: c in common && h in common[c].parents
    requires chosen == (set h | h in common && h !in ancestors) && Lists(sorted, chosen)
    ensures forall h :: h in sorted <==> NoCommonChild(store, head, base, h)
  {
    forall h ensures h in sorted <==> NoCommonChild(store, head, base, h) {
      assert h in sorted <==> h in common && h !in ancestors;
    }
  }

  /** The walk with nothing excluded: the whole history, each commit as it is stored. */
  method History(store: Store, head: Hash) returns (r: Result<map<Hash, Commit>, GraphError>)
    ensures r.Ok? <==> Walkable(store, head, {})
    ensures r.Ok? ==> forall h :: h in r.value <==> Reaches(store, head, h)
    ensures r.Ok? ==> forall h | h in r.value :: r.value[h].parents == Parents(store, h)
    ensures r != Err(NoCommonHistory) && r != Err(TreeFailed)
  {
    var nothing: map<Hash, Commit> := map[];
    assert nothing.Keys == {};
    r := ReachableCommits(store, head, nothing);
    if r.Ok? {
      forall h ensures h in r.value <==> Reaches(store, head, h) {
        NothingExcluded(store, head, h);
        assert h in r.value.Keys <==> ReachesOutside(store, head, h, {});
      }
    }
  }

  /** boundedMergeBases: exactly the best common ancestors, sorted, without duplicates. */
  method BoundedMergeBases(store: Store, head: Hash, base: Hash) returns (r: Result<seq<Hash>, GraphError>)
    ensures r.Ok? <==> Walkable(store, head, {}) && Walkable(store, base, {})
    ensures r.Ok? ==> forall h :: h in r.value <==> NoCommonChild(store, head, base, h)
    ensures r.Ok? ==> forall i, j | 0 <= i < j < |r.value| :: r.value[i] < r.value[j]
    ensures r.Ok? && Acyclic(store) ==> forall h :: h in r.value <==> BestCommon(store, head, base, h)
    ensures r.Ok? && Acyclic(store) ==> (r.value != [] <==> exists h :: Common(store, head, base, h))
    ensures r != Err(NoCommonHistory) && r != Err(TreeFailed)
  {
    var left := History(store, head);
    if left.Err? {
      return Err(left.error);
    }
    var right := History(store, base);
    if right.Err? {
      return Err(right.error);
    }
    var common := map h | h in left.value && h in right.value :: left.value[h];
    var sorted := ChooseBases(store, head, base, common);
    if Acyclic(store) {
      BasesAreBest(store, head, base, common.Keys, sorted);
    }
    return Ok(sorted);
  }

  /** The common ancestors that are nobody's parent among them, sorted. */
  method ChooseBases(ghost store: Store, ghost head: Hash, ghost base: Hash, common: map<Hash, Commit>)
    returns (sorted: seq<Hash>)
    requires forall h :: h in common <==> Common(store, head, base, h)
    requires forall c | c in common :: common[c].parents == Parents(store, c)
    ensures forall h :: h in sorted <==> NoCommonChild(store, head, base, h)
    ensures forall i, j | 0 <= i < j < |sorted| :: sorted[i] < sorted[j]
  {
    var ancestors := CollectParents(common);
    var bases := CollectBases(common, ancestors);
    AscendingOrder();
    sorted := Sort(Ascending, bases);
    ghost var chosen := set h | h in common && h !in ancestors;
    PermutationLists(bases, sorted, chosen);
    ChosenHaveNoChild(store, head, base, common, ancestors, chosen, sorted);
    StrictlyAscending(sorted, chosen);
  }

  lemma StrictlyAscending(sorted: seq<Hash>, elements: set<Hash>)
    requires Sorted(Ascending, sorted) && Lists(sorted, elements)
    ensures forall i, j | 0 <= i < j < |sorted| :: sorted[i] < sorted[j]
  {
    forall i, j | 0 <= i < j < |sorted| ensures sorted[i] < sorted[j] {
      assert Ascending(sorted[i], sorted[j]) && sorted[i] != sorted[j];
    }
  }

  method CollectParents(common: map<Hash, Commit>) returns (ancestors: set<Hash>)
    ensures forall h :: h in ancestors <==> exists c :: c in common && h in common[c].parents
  {
    ancestors := {};
    var todo := common.Keys;
    while todo != {}
      invariant todo <= common.Keys
      invariant forall h :: h in ancestors <==> exists c :: c in common && c !in todo && h in common[c].parents
      decreases |todo|
    {
      var c :| c in todo;
      var more := ancestors + set h | h in common[c].parents;
      forall h
        ensures h in more <==> exists c' :: c' in common && c' !in todo - {c} && h in common[c'].parents
      {
        if c' :| c' in common && c' !in todo - {c} && h in common[c'].parents {
          assert c' == c || (c' !in todo && h in ancestors);
        }
        if h in ancestors {
          var c' :| c' in common && c' !in todo && h in common[c'].parents;
          assert c' !in todo - {c};
        } else if h in more {
          assert c !in todo - {c} && h in common[c].parents;
        }
      }
      ancestors, todo := more, todo - {c};
    }
  }

  method CollectBases(common: map<Hash, Commit>, ancestors: set<Hash>) returns (bases: seq<Hash>)
    ensures Lists(bases, set h | h in common && h !in ancestors)
  {
    bases := [];
    var todo := common.Keys;
    while todo != {}
      invariant todo <= common.Keys
      invariant Lists(bases, set h | h in common && h !in todo && h !in ancestors)
      decreases |todo|
    {
      var h :| h in todo;
      ghost var before := set x | x in common && x !in todo && x !in ancestors;
      if h !in ancestors {
        ListsAppend(bases, before, h);
        bases := bases + [h];
      }
      todo := todo - {h};
      assert (set x | x in common && x !in todo && x !in ancestors) ==
             if h !in ancestors then before + {h} else before;
    }
    assert (set h | h in common && h !in todo && h !in ancestors) == (set h | h in common && h !in ancestors);
  }
}
