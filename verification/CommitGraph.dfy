/**
 The commit graph of a pull request: paths, histories, and the bounded walk over them.

 A hash stands for itself as a number; hexadecimal text of a fixed width sorts
 the same way.
 */
module CommitGraph {
  import opened Wrappers
  import opened Sets

  type Hash = nat

  datatype Commit = Commit(hash: Hash, parents: seq<Hash>, title: string, author: string, date: int)

  /** One object of the store: its size, and its content if it decodes as a commit. */
  datatype Encoded = Encoded(size: nat, decoded: Option<Commit>)

  type Store = map<Hash, Encoded>

  datatype GraphError =
    | HistoryTooLong
    | UnreadableCommit
    | HistoryTooLarge
    | UndecodableCommit
    | NoCommonHistory
    | TreeFailed

  const MAXIMUM_HISTORY_COMMITS := 100000
  const MAXIMUM_COMMIT_BYTES := 0x10_0000
  const MAXIMUM_HISTORY_BYTES := 0x400_0000

  predicate Readable(store: Store, h: Hash) {
    h in store && store[h].decoded.Some?
  }

  function Parents(store: Store, h: Hash): seq<Hash> {
    if Readable(store, h) then store[h].decoded.value.parents else []
  }

  /******* Paths *******/

  predicate IsPath(store: Store, path: seq<Hash>) {
    && |path| > 0
    && forall i | 0 < i < |path| :: path[i] in Parents(store, path[i - 1])
  }

  predicate Connects(store: Store, path: seq<Hash>, a: Hash, b: Hash) {
    IsPath(store, path) && path[0] == a && path[|path| - 1] == b
  }

  /** b is a itself or one of its ancestors. */
  ghost predicate Reaches(store: Store, a: Hash, b: Hash) {
    exists path :: Connects(store, path, a, b)
  }

  predicate Outside(path: seq<Hash>, excluded: set<Hash>) {
    forall i | 0 <= i < |path| :: path[i] !in excluded
  }

  /** Some path from a to b stays outside the excluded commits. */
  ghost predicate ReachesOutside(store: Store, a: Hash, b: Hash, excluded: set<Hash>) {
    exists path :: Connects(store, path, a, b) && Outside(path, excluded)
  }

  /** No commit is its own proper ancestor, which the hashing of commits guarantees. */
  ghost predicate Acyclic(store: Store) {
    forall path | IsPath(store, path) && |path| > 1 :: path[0] != path[|path| - 1]
  }

  /** A rank that falls from every commit to its parents rules cycles out. */
  lemma {:induction false} RankFalls(store: Store, rank: Hash -> nat, path: seq<Hash>)
    requires forall h, q | q in Parents(store, h) :: rank(q) < rank(h)
    requires IsPath(store, path) && |path| > 1
    ensures rank(path[|path| - 1]) < rank(path[0])
  {
    assert path[1] in Parents(store, path[0]);
    if |path| > 2 {
      RankFalls(store, rank, path[1..]);
    }
  }

  lemma RankMeansAcyclic(store: Store, rank: Hash -> nat)
    requires forall h, q | q in Parents(store, h) :: rank(q) < rank(h)
    ensures Acyclic(store)
  {
    forall path | IsPath(store, path) && |path| > 1 ensures path[0] != path[|path| - 1] {
      RankFalls(store, rank, path);
    }
  }

  lemma ReachesSelf(store: Store, a: Hash)
    ensures Reaches(store, a, a)
  {
    assert Connects(store, [a], a, a);
  }

  lemma SelfOutside(store: Store, a: Hash, excluded: set<Hash>)
    requires a !in excluded
    ensures ReachesOutside(store, a, a, excluded)
  {
    assert Connects(store, [a], a, a) && Outside([a], excluded);
  }

  lemma ParentOutside(store: Store, a: Hash, b: Hash, q: Hash, excluded: set<Hash>)
    requires ReachesOutside(store, a, b, excluded) && q in Parents(store, b) && q !in excluded
    ensures ReachesOutside(store, a, q, excluded)
  {
    var path :| Connects(store, path, a, b) && Outside(path, excluded);
    assert Connects(store, path + [q], a, q) && Outside(path + [q], excluded);
  }

  lemma JoinPaths(store: Store, p: seq<Hash>, q: seq<Hash>)
    requires IsPath(store, p) && IsPath(store, q) && p[|p| - 1] == q[0]
    ensures Connects(store, p + q[1..], p[0], q[|q| - 1])
  {
    var path := p + q[1..];
    forall i | 0 < i < |path| ensures path[i] in Parents(store, path[i - 1]) {
      if i >= |p| {
        assert path[i] == q[i - |p| + 1] && path[i - 1] == q[i - |p|];
      }
    }
  }

  lemma ReachesTransitive(store: Store, a: Hash, b: Hash, c: Hash)
    requires Reaches(store, a, b) && Reaches(store, b, c)
    ensures Reaches(store, a, c)
  {
    var p :| Connects(store, p, a, b);
    var q :| Connects(store, q, b, c);
    JoinPaths(store, p, q);
  }

  lemma NoMutualAncestors(store: Store, a: Hash, b: Hash)
    requires Acyclic(store) && Reaches(store, a, b) && Reaches(store, b, a)
    ensures a == b
  {
    var p :| Connects(store, p, a, b);
    var q :| Connects(store, q, b, a);
    JoinPaths(store, p, q);
    assert |p| == 1 ==> a == b;
    assert IsPath(store, p + q[1..]);
  }

  /** A set of commits that contains a, and with every commit its parents
      outside the excluded ones, contains everything that a reaches outside them. */
  lemma {:induction false} ClosedContainsPath(store: Store, closed: set<Hash>, excluded: set<Hash>, path: seq<Hash>, i: nat)
    requires IsPath(store, path) && Outside(path, excluded) && i < |path|
    requires path[0] in closed
    requires forall h, q | h in closed && q in Parents(store, h) :: q in closed || q in excluded
    ensures path[i] in closed
  {
    if i > 0 {
      ClosedContainsPath(store, closed, excluded, path, i - 1);
    }
  }

  /** Pruning at a set that is closed under parents loses nothing but the set. */
  lemma PruningIsDifference(store: Store, head: Hash, top: Hash, excluded: set<Hash>, h: Hash)
    requires forall x :: x in excluded <==> Reaches(store, top, x)
    ensures ReachesOutside(store, head, h, excluded) <==> Reaches(store, head, h) && !Reaches(store, top, h)
  {
    if Reaches(store, head, h) && !Reaches(store, top, h) {
      var path :| Connects(store, path, head, h);
      forall i | 0 <= i < |path| ensures path[i] !in excluded {
        if path[i] in excluded {
          assert Connects(store, path[i..], path[i], h);
          ReachesTransitive(store, top, path[i], h);
        }
      }
      assert Outside(path, excluded);
    }
    if ReachesOutside(store, head, h, excluded) {
      var path :| Connects(store, path, head, h) && Outside(path, excluded);
      assert path[|path| - 1] !in excluded;
    }
  }

  lemma NothingExcluded(store: Store, head: Hash, h: Hash)
    ensures ReachesOutside(store, head, h, {}) <==> Reaches(store, head, h)
  {
    if Reaches(store, head, h) {
      var path :| Connects(store, path, head, h);
      assert Outside(path, {});
    }
  }

  /******* The limits of a walk *******/

  ghost function TotalSize(store: Store, commits: set<Hash>): nat {
    if commits == {} then 0
    else
      var h :| h in commits;
      (if h in store then store[h].size else 0) + TotalSize(store, commits - {h})
  }

  lemma {:induction false} TotalSizePart(store: Store, commits: set<Hash>, h: Hash)
    requires h in commits
    ensures TotalSize(store, commits) == (if h in store then store[h].size else 0) + TotalSize(store, commits - {h})
    decreases commits
  {
    var x :| x in commits && TotalSize(store, commits) == (if x in store then store[x].size else 0) + TotalSize(store, commits - {x});
    if x != h {
      TotalSizePart(store, commits - {x}, h);
      TotalSizePart(store, commits - {h}, x);
      assert commits - {x} - {h} == commits - {h} - {x};
    }
  }

  lemma {:induction false} TotalSizeMonotone(store: Store, part: set<Hash>, whole: set<Hash>)
    requires part <= whole
    ensures TotalSize(store, part) <= TotalSize(store, whole)
    decreases whole
  {
    if part != whole {
      var h :| h in whole && h !in part;
      TotalSizePart(store, whole, h);
      TotalSizeMonotone(store, part, whole - {h});
    }
  }

  ghost predicate WithinLimits(store: Store, commits: set<Hash>) {
    && |commits| <= MAXIMUM_HISTORY_COMMITS
    && (forall h | h in commits :: Readable(store, h) && store[h].size <= MAXIMUM_COMMIT_BYTES)
    && TotalSize(store, commits) <= MAXIMUM_HISTORY_BYTES
  }

  /** The commits that head reaches outside the excluded ones form a finite set within the limits. */
  ghost predicate Walkable(store: Store, head: Hash, excluded: set<Hash>) {
    exists commits :: WithinLimits(store, commits) && ReachableSet(store, head, excluded, commits)
  }

  ghost predicate ReachableSet(store: Store, head: Hash, excluded: set<Hash>, commits: set<Hash>) {
    forall h :: h in commits <==> ReachesOutside(store, head, h, excluded)
  }

  /** What the walk has seen so far. */
  ghost predicate Seen(store: Store, head: Hash, excluded: set<Hash>, seen: map<Hash, Commit>) {
    forall h | h in seen ::
      ReachesOutside(store, head, h, excluded) && Readable(store, h) && seen[h] == store[h].decoded.value
  }

  lemma TooMuchForLimits(store: Store, head: Hash, excluded: set<Hash>, seen: map<Hash, Commit>, hash: Hash)
    requires Seen(store, head, excluded, seen) && ReachesOutside(store, head, hash, excluded) && hash !in seen
    requires !Readable(store, hash) || store[hash].size > MAXIMUM_COMMIT_BYTES ||
             |seen| >= MAXIMUM_HISTORY_COMMITS ||
             TotalSize(store, seen.Keys) + store[hash].size > MAXIMUM_HISTORY_BYTES
    ensures !Walkable(store, head, excluded)
  {
    var part := seen.Keys + {hash};
    assert |part| == |seen| + 1;
    if Walkable(store, head, excluded) {
      var commits :| WithinLimits(store, commits) && ReachableSet(store, head, excluded, commits);
      SubsetSize(part, commits);
      TotalSizePart(store, part, hash);
      assert part - {hash} == seen.Keys;
      TotalSizeMonotone(store, part, commits);
    }
  }

  /** The state of the walk: everything that is still to be found lies behind `pending`. */
  ghost predicate Frontier(store: Store, head: Hash, excluded: set<Hash>, seen: set<Hash>, pending: seq<Hash>) {
    && (forall h | h in pending :: h in excluded || ReachesOutside(store, head, h, excluded))
    && (head in seen || head in excluded || head in pending)
    && (forall h, q | h in seen && q in Parents(store, h) :: q in seen || q in excluded || q in pending)
  }

  lemma SplitLast(s: seq<Hash>)
    requires |s| > 0
    ensures s == s[..|s| - 1] + [s[|s| - 1]]
  {
  }

  lemma FrontierSkips(store: Store, head: Hash, excluded: set<Hash>, seen: set<Hash>, pending: seq<Hash>, hash: Hash)
    requires Frontier(store, head, excluded, seen, pending + [hash])
    requires hash in seen || hash in excluded
    ensures Frontier(store, head, excluded, seen, pending)
  {
    assert forall h | h in pending :: h in pending + [hash];
  }

  lemma FrontierVisits(store: Store, head: Hash, excluded: set<Hash>, seen: set<Hash>, pending: seq<Hash>, hash: Hash)
    requires Frontier(store, head, excluded, seen, pending + [hash])
    requires ReachesOutside(store, head, hash, excluded)
    ensures Frontier(store, head, excluded, seen + {hash}, pending + Parents(store, hash))
  {
    var pending' := pending + Parents(store, hash);
    forall h | h in pending' ensures h in excluded || ReachesOutside(store, head, h, excluded) {
      if h in pending {
        assert h in pending + [hash];
      } else if h !in excluded {
        ParentOutside(store, head, hash, h, excluded);
      }
    }
    forall h, q | h in seen + {hash} && q in Parents(store, h)
      ensures q in seen + {hash} || q in excluded || q in pending'
    {
      if h in seen {
        assert q in seen || q in excluded || q in pending + [hash];
      }
    }
  }

  /** What holds at every turn of the walk. */
  ghost predicate Walking(store: Store, head: Hash, excluded: set<Hash>,
                          seen: map<Hash, Commit>, pending: seq<Hash>, bytesRead: nat)
  {
    && Seen(store, head, excluded, seen)
    && Frontier(store, head, excluded, seen.Keys, pending)
    && WithinLimits(store, seen.Keys)
    && bytesRead == TotalSize(store, seen.Keys)
  }

  lemma WalkingStarts(store: Store, head: Hash, excluded: set<Hash>)
    ensures Walking(store, head, excluded, map[], [head], 0)
  {
    if head !in excluded {
      SelfOutside(store, head, excluded);
    }
  }

  lemma SeenVisits(store: Store, head: Hash, excluded: set<Hash>, seen: map<Hash, Commit>, hash: Hash)
    requires Seen(store, head, excluded, seen)
    requires ReachesOutside(store, head, hash, excluded) && Readable(store, hash)
    ensures Seen(store, head, excluded, seen[hash := store[hash].decoded.value])
  {
  }

  lemma LimitsVisit(store: Store, seen: set<Hash>, hash: Hash)
    requires WithinLimits(store, seen) && hash !in seen && |seen| < MAXIMUM_HISTORY_COMMITS
    requires Readable(store, hash) && store[hash].size <= MAXIMUM_COMMIT_BYTES
    requires TotalSize(store, seen) + store[hash].size <= MAXIMUM_HISTORY_BYTES
    ensures WithinLimits(store, seen + {hash})
    ensures TotalSize(store, seen + {hash}) == TotalSize(store, seen) + store[hash].size
  {
    TotalSizePart(store, seen + {hash}, hash);
    assert seen + {hash} - {hash} == seen;
  }

  lemma Unseen(store: Store, seen: set<Hash>, hash: Hash)
    requires hash !in seen && hash in store
    ensures |store.Keys - (seen + {hash})| < |store.Keys - seen|
  {
    assert store.Keys - (seen + {hash}) == (store.Keys - seen) - {hash};
  }

  lemma WalkingVisits(store: Store, head: Hash, excluded: set<Hash>,
                      seen: map<Hash, Commit>, pending: seq<Hash>, bytesRead: nat, hash: Hash)
    requires Walking(store, head, excluded, seen, pending + [hash], bytesRead)
    requires hash !in seen && hash !in excluded && |seen| < MAXIMUM_HISTORY_COMMITS
    requires Readable(store, hash) && store[hash].size <= MAXIMUM_COMMIT_BYTES
    requires bytesRead + store[hash].size <= MAXIMUM_HISTORY_BYTES
    ensures var commit := store[hash].decoded.value;
            && Walking(store, head, excluded, seen[hash := commit], pending + commit.parents,
                       bytesRead + store[hash].size)
            && |store.Keys - seen[hash := commit].Keys| < |store.Keys - seen.Keys|
  {
    assert hash in pending + [hash];
    assert seen[hash := store[hash].decoded.value].Keys == seen.Keys + {hash};
    FrontierVisits(store, head, excluded, seen.Keys, pending, hash);
    SeenVisits(store, head, excluded, seen, hash);
    LimitsVisit(store, seen.Keys, hash);
    Unseen(store, seen.Keys, hash);
  }

  lemma FrontierDone(store: Store, head: Hash, excluded: set<Hash>, seen: set<Hash>)
    requires Frontier(store, head, excluded, seen, [])
    requires forall h | h in seen :: ReachesOutside(store, head, h, excluded)
    ensures ReachableSet(store, head, excluded, seen)
    ensures WithinLimits(store, seen) ==> Walkable(store, head, excluded)
  {
    forall h | ReachesOutside(store, head, h, excluded) ensures h in seen {
      var path :| Connects(store, path, head, h) && Outside(path, excluded);
      ClosedContainsPath(store, seen, excluded, path, |path| - 1);
    }
  }

  /** Reads one commit object of the walk, counting the bytes read so far. */
  method ReadCommit(store: Store, hash: Hash, bytesRead: nat) returns (r: Result<Commit, GraphError>, total: nat)
    ensures r.Ok? <==>
              Readable(store, hash) && store[hash].size <= MAXIMUM_COMMIT_BYTES &&
              bytesRead + store[hash].size <= MAXIMUM_HISTORY_BYTES
    ensures r.Ok? ==> r.value == store[hash].decoded.value && total == bytesRead + store[hash].size
    ensures r != Err(NoCommonHistory) && r != Err(TreeFailed)
  {
    total := bytesRead;
    if hash !in store {
      return Err(UnreadableCommit), total;
    }
    var encoded := store[hash];
    total := bytesRead + encoded.size;
    if encoded.size > MAXIMUM_COMMIT_BYTES || total > MAXIMUM_HISTORY_BYTES {
      return Err(HistoryTooLarge), total;
    }
    if encoded.decoded.None? {
      return Err(UndecodableCommit), total;
    }
    return Ok(encoded.decoded.value), total;
  }

  /** reachableCommits: depth first with an explicit stack. It returns every
      commit that head reaches outside the excluded ones, or an error, and an
      error exactly when they do not fit the limits. */
  method ReachableCommits(store: Store, head: Hash, excluded: map<Hash, Commit>)
    returns (r: Result<map<Hash, Commit>, GraphError>)
    ensures r.Ok? <==> Walkable(store, head, excluded.Keys)
    ensures r.Ok? ==> ReachableSet(store, head, excluded.Keys, r.value.Keys)
    ensures r.Ok? ==> Seen(store, head, excluded.Keys, r.value)
    ensures r != Err(NoCommonHistory) && r != Err(TreeFailed)
  {
    ghost var ex := excluded.Keys;
    var seen: map<Hash, Commit> := map[];
    var bytesRead: nat := 0;
    var pending := [head];
    WalkingStarts(store, head, ex);
    while |pending| > 0
      invariant Walking(store, head, ex, seen, pending, bytesRead)
      decreases |store.Keys - seen.Keys|, |pending|
    {
      var hash := pending[|pending| - 1];
      SplitLast(pending);
      pending := pending[..|pending| - 1];
      if hash in seen || hash in excluded {
        FrontierSkips(store, head, ex, seen.Keys, pending, hash);
        continue;
      }
      assert hash in pending + [hash];
      if |seen| >= MAXIMUM_HISTORY_COMMITS {
        TooMuchForLimits(store, head, ex, seen, hash);
        return Err(HistoryTooLong);
      }
      var read, total := ReadCommit(store, hash, bytesRead);
      if read.Err? {
        TooMuchForLimits(store, head, ex, seen, hash);
        return Err(read.error);
      }
      WalkingVisits(store, head, ex, seen, pending, bytesRead, hash);
      bytesRead := total;
      seen := seen[hash := read.value];
      pending := pending + read.value.parents;
    }
    assert pending == [];
    FrontierDone(store, head, ex, seen.Keys);
    return Ok(seen);
  }
}
