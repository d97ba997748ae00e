/**
 The merge state of a pull request, and how it follows from the commit graph.
 */
module MergeState {
  import opened Wrappers
  import opened Sorting
  import opened CommitGraph
  import opened MergeBases

  /** One tree change; an absent side has the empty name. */
  datatype Change = Change(from: string, to: string)

  datatype State = FastForward | Diverged | Conflicting

  datatype Report = Report(state: State, conflicts: seq<string>, baseCommits: nat)

  datatype Pull = Pull(mergeBase: Hash, commits: seq<PullCommit>, report: Report)

  /** The path is the source or the destination of one of the changes. */
  ghost predicate Touches(changes: seq<Change>, path: string) {
    path != "" && exists c :: c in changes && (c.from == path || c.to == path)
  }

  method TouchedPaths(changes: seq<Change>) returns (paths: set<string>)
    ensures forall path :: path in paths <==> Touches(changes, path)
  {
    paths := {};
    for i := 0 to |changes|
      invariant forall path :: path in paths <==> Touches(changes[..i], path)
    {
      var change := changes[i];
      assert changes[..i + 1] == changes[..i] + [change];
      ghost var before := paths;
      if change.from != "" {
        paths := paths + {change.from};
      }
      if change.to != "" {
        paths := paths + {change.to};
      }
      forall path ensures path in paths <==> Touches(changes[..i + 1], path) {
        assert path in before <==> Touches(changes[..i], path);
        if path in paths && path !in before {
          assert change in changes[..i + 1];
        }
      }
    }
    assert changes[..|changes|] == changes;
  }

  /** The paths in both sets, sorted. */
  method Intersect(headPaths: set<string>, basePaths: set<string>) returns (conflicts: seq<string>)
    ensures Lists(conflicts, headPaths * basePaths)
    ensures Sorted(StringLe, conflicts)
  {
    var found: seq<string> := [];
    var todo := basePaths;
    while todo != {}
      invariant todo <= basePaths
      invariant Lists(found, headPaths * (basePaths - todo))
      decreases |todo|
    {
      var path :| path in todo;
      if path in headPaths {
        ListsAppend(found, headPaths * (basePaths - todo), path);
        found := found + [path];
        assert headPaths * (basePaths - (todo - {path})) == headPaths * (basePaths - todo) + {path};
      } else {
        assert headPaths * (basePaths - (todo - {path})) == headPaths * (basePaths - todo);
      }
      todo := todo - {path};
    }
    assert basePaths - todo == basePaths;
    StringOrder();
    conflicts := Sort(StringLe, found);
    PermutationLists(found, conflicts, headPaths * basePaths);
  }

  /** Base commits are counted exactly: the number of commits base has and mergeBase has not. */
  ghost predicate Counts(store: Store, mergeBase: Hash, base: Hash, count: nat) {
    exists commits: set<Hash> :: |commits| == count && SinceSet(store, mergeBase, base, commits)
  }

  function ChangesOf(diff: Option<seq<Change>>): seq<Change> {
    if diff.Some? then diff.value else []
  }

  /** The commits of base since mergeBase can be listed. */
  ghost predicate CanCount(store: Store, mergeBase: Hash, base: Hash) {
    mergeBase == base || (Walkable(store, mergeBase, {}) && SinceFits(store, mergeBase, base))
  }

  /** mergeStateFor, with the two tree diffs as inputs; the second one is asked for only
      if the base branch has commits of its own, and None if it fails. */
  method MergeStateFor(store: Store, mergeBase: Hash, base: Hash, headChanges: seq<Change>, baseDiff: Option<seq<Change>>)
    returns (r: Result<Report, GraphError>)
    requires Addressed(store)
    ensures r.Ok? <==> CanCount(store, mergeBase, base) && (baseDiff.Some? || forall h :: !Since(store, mergeBase, base, h))
    ensures r == Err(TreeFailed) <==> CanCount(store, mergeBase, base) && !r.Ok?
    ensures r.Ok? ==> Counts(store, mergeBase, base, r.value.baseCommits)
    ensures r.Ok? ==> (r.value.state == FastForward <==> r.value.baseCommits == 0)
    ensures r.Ok? && r.value.state != FastForward ==>
              (r.value.state == Conflicting <==>
               exists path :: Touches(headChanges, path) && Touches(ChangesOf(baseDiff), path))
    ensures r.Ok? ==> Sorted(StringLe, r.value.conflicts)
    ensures r.Ok? ==> forall i, j | 0 <= i < j < |r.value.conflicts| :: r.value.conflicts[i] != r.value.conflicts[j]
    ensures r.Ok? ==> forall path ::
              path in r.value.conflicts <==>
              r.value.state != FastForward && Touches(headChanges, path) && Touches(ChangesOf(baseDiff), path)
    ensures r != Err(NoCommonHistory)
  {
    var since := CommitsSince(store, mergeBase, base);
    if since.Err? {
      return Err(since.error);
    }
    var baseCommits := since.value;
    CommitsCounted(store, mergeBase, base, baseCommits);
    ZeroCount(store, mergeBase, base, |baseCommits|);
    if |baseCommits| == 0 {
      return Ok(Report.Report(FastForward, [], 0));
    }
    if baseDiff.None? {
      return Err(TreeFailed);
    }
    var baseChanges := baseDiff.value;
    var headPaths := TouchedPaths(headChanges);
    var basePaths := TouchedPaths(baseChanges);
    var conflicts := Intersect(headPaths, basePaths);
    assert forall path :: path in conflicts <==> Touches(headChanges, path) && Touches(baseChanges, path);
    if |conflicts| > 0 {
      assert conflicts[0] in conflicts;
      return Ok(Report.Report(Conflicting, conflicts, |baseCommits|));
    }
    return Ok(Report.Report(Diverged, [], |baseCommits|));
  }

  lemma CommitsCounted(store: Store, mergeBase: Hash, head: Hash, commits: seq<PullCommit>)
    requires forall h :: h in Hashes(commits) <==> Since(store, mergeBase, head, h)
    requires forall i, j | 0 <= i < j < |commits| :: commits[i].sha != commits[j].sha
    ensures Counts(store, mergeBase, head, |commits|)
  {
    var hashes := set h | h in Hashes(commits);
    assert Lists(Hashes(commits), hashes);
    ListsSize(Hashes(commits), hashes);
    assert SinceSet(store, mergeBase, head, hashes);
  }

  /** When the base tip is an ancestor of the head, it is the only merge base. */
  lemma BaseTipIsMergeBase(store: Store, head: Hash, base: Hash, h: Hash)
    requires Acyclic(store) && Reaches(store, head, base)
    ensures BestCommon(store, head, base, h) <==> h == base
  {
    ReachesSelf(store, base);
    if BestCommon(store, head, base, h) {
      assert Common(store, head, base, base);
    }
    if h == base {
      forall c | Common(store, head, base, c) && Reaches(store, c, h) ensures c == h {
        NoMutualAncestors(store, c, base);
      }
    }
  }

  /** Nothing on the base branch since the merge base means that the base tip is the merge base. */
  lemma NothingSinceMeansTip(store: Store, head: Hash, base: Hash, mergeBase: Hash)
    requires Acyclic(store) && Common(store, head, base, mergeBase)
    ensures (forall h :: !Since(store, mergeBase, base, h)) <==> mergeBase == base
  {
    ReachesSelf(store, base);
    if forall h :: !Since(store, mergeBase, base, h) {
      assert !Since(store, mergeBase, base, base);
      NoMutualAncestors(store, mergeBase, base);
    }
  }

  lemma ZeroCount(store: Store, mergeBase: Hash, base: Hash, count: nat)
    requires Counts(store, mergeBase, base, count)
    ensures count == 0 <==> forall h :: !Since(store, mergeBase, base, h)
  {
    var commits :| |commits| == count && SinceSet(store, mergeBase, base, commits);
    if count > 0 {
      var h :| h in commits;
      assert Since(store, mergeBase, base, h);
    }
  }

  /** What DiffPull reads of trees: whether that of a commit can be read, and the diff of
      two, with or without the detection of renames, or None if it fails. */
  datatype Trees = Trees(readable: Hash -> bool, diff: (Hash, Hash, bool) -> Option<seq<Change>>)

  /** The trees of the three commits can be read and the head's diff can be made. */
  predicate TreesOk(trees: Trees, mergeBase: Hash, head: Hash, base: Hash) {
    trees.readable(mergeBase) && trees.readable(head) && trees.readable(base) && trees.diff(mergeBase, head, false).Some?
  }

  /** Everything that DiffPull reads once it has the merge base can be read. */
  ghost predicate CanCompare(store: Store, mergeBase: Hash, head: Hash, base: Hash, trees: Trees) {
    && CanCount(store, mergeBase, head)
    && TreesOk(trees, mergeBase, head, base)
    && CanCount(store, mergeBase, base)
    && (trees.diff(mergeBase, base, true).Some? || forall h :: !Since(store, mergeBase, base, h))
  }

  /** The graph part of DiffPull. */
  method ComparePull(store: Store, head: Hash, base: Hash, trees: Trees) returns (r: Result<Pull, GraphError>)
    requires Addressed(store)
    ensures Acyclic(store) ==>
              (r == Err(NoCommonHistory) <==>
               Walkable(store, head, {}) && Walkable(store, base, {}) && forall h :: !Common(store, head, base, h))
    ensures Acyclic(store) && r.Ok? ==> BestCommon(store, head, base, r.value.mergeBase)
    ensures Acyclic(store) && r.Ok? ==> forall h | BestCommon(store, head, base, h) :: r.value.mergeBase <= h
    ensures Acyclic(store) ==>
              (r.Ok? <==> (Walkable(store, head, {}) && Walkable(store, base, {}) &&
                           exists m :: FirstBest(store, head, base, m) && CanCompare(store, m, head, base, trees)))
    ensures Acyclic(store) && r.Ok? ==>
              (r.value.report.state == FastForward <==> Reaches(store, head, base))
    ensures Acyclic(store) && r.Ok? && r.value.report.state == FastForward ==>
              r.value.mergeBase == base && r.value.report.baseCommits == 0 && r.value.report.conflicts == []
    ensures r.Ok? && r.value.report.state != FastForward ==>
              forall path :: path in r.value.report.conflicts <==>
                Touches(ChangesOf(trees.diff(r.value.mergeBase, head, false)), path) &&
                Touches(ChangesOf(trees.diff(r.value.mergeBase, base, true)), path)
    ensures r.Ok? && r.value.report.state != FastForward ==>
              (r.value.report.state == Conflicting <==> r.value.report.conflicts != [])
    ensures r.Ok? ==> Counts(store, r.value.mergeBase, base, r.value.report.baseCommits)
    ensures r.Ok? ==> forall h :: h in Hashes(r.value.commits) <==> Since(store, r.value.mergeBase, head, h)
  {
    var bases := BoundedMergeBases(store, head, base);
    if bases.Err? {
      return Err(bases.error);
    }
    if |bases.value| == 0 {
      return Err(NoCommonHistory);
    }
    var mergeBase := bases.value[0];
    FirstIsSmallest(bases.value);
    r := CompareAt(store, mergeBase, head, base, trees);
    if Acyclic(store) {
      assert FirstBest(store, head, base, mergeBase);
      if r.Ok? {
        FastForwardMeansAncestor(store, head, base, mergeBase, r.value.report.baseCommits);
      }
    }
  }

  /** The smallest of the best common ancestors. */
  ghost predicate FirstBest(store: Store, head: Hash, base: Hash, m: Hash) {
    BestCommon(store, head, base, m) && forall h | BestCommon(store, head, base, h) :: m <= h
  }

  lemma FirstIsSmallest(bases: seq<Hash>)
    requires bases != [] && forall i, j | 0 <= i < j < |bases| :: bases[i] < bases[j]
    ensures bases[0] in bases && forall h | h in bases :: bases[0] <= h
  {
    forall h | h in bases ensures bases[0] <= h {
      var i :| 0 <= i < |bases| && bases[i] == h;
    }
  }

  /** The comparison once the merge base is known. */
  method CompareAt(store: Store, mergeBase: Hash, head: Hash, base: Hash, trees: Trees) returns (r: Result<Pull, GraphError>)
    requires Addressed(store)
    ensures r.Ok? <==> CanCompare(store, mergeBase, head, base, trees)
    ensures r != Err(NoCommonHistory)
    ensures r.Ok? ==> r.value.mergeBase == mergeBase
    ensures r.Ok? ==> (r.value.report.state == FastForward <==> r.value.report.baseCommits == 0)
    ensures r.Ok? && r.value.report.state == FastForward ==> r.value.report.conflicts == []
    ensures r.Ok? && r.value.report.state != FastForward ==>
              forall path :: path in r.value.report.conflicts <==>
                Touches(ChangesOf(trees.diff(mergeBase, head, false)), path) &&
                Touches(ChangesOf(trees.diff(mergeBase, base, true)), path)
    ensures r.Ok? && r.value.report.state != FastForward ==>
              (r.value.report.state == Conflicting <==> r.value.report.conflicts != [])
    ensures r.Ok? ==> Counts(store, mergeBase, base, r.value.report.baseCommits)
    ensures r.Ok? ==> forall h :: h in Hashes(r.value.commits) <==> Since(store, mergeBase, head, h)
  {
    var commits := CommitsSince(store, mergeBase, head);
    if commits.Err? {
      return Err(commits.error);
    }
    if !trees.readable(mergeBase) || !trees.readable(head) || !trees.readable(base) {
      return Err(TreeFailed);
    }
    var headDiff := trees.diff(mergeBase, head, false);
    if headDiff.None? {
      return Err(TreeFailed);
    }
    var report := MergeStateFor(store, mergeBase, base, headDiff.value, trees.diff(mergeBase, base, true));
    if report.Err? {
      return Err(report.error);
    }
    if report.value.conflicts != [] {
      assert report.value.conflicts[0] in report.value.conflicts;
    }
    return Ok(Pull(mergeBase, commits.value, report.value));
  }

  /** The merge state is fast_forward exactly when the base tip is an ancestor of the head. */
  lemma FastForwardMeansAncestor(store: Store, head: Hash, base: Hash, mergeBase: Hash, baseCommits: nat)
    requires Acyclic(store) && BestCommon(store, head, base, mergeBase)
    requires Counts(store, mergeBase, base, baseCommits)
    ensures baseCommits == 0 <==> Reaches(store, head, base)
    ensures baseCommits == 0 <==> mergeBase == base
  {
    ZeroCount(store, mergeBase, base, baseCommits);
    NothingSinceMeansTip(store, head, base, mergeBase);
    if Reaches(store, head, base) {
      BaseTipIsMergeBase(store, head, base, mergeBase);
    }
  }
}
