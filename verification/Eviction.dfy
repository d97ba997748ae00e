/**
 What making room does to a listing sorted by modification time, as a function:
 which entries go, and in which order. The theorems say what the loop's
 decision, taken entry by entry, means for the disk as a whole.
 */
module Eviction {
  import opened Wrappers
  import opened DiskTree
  import Sorting

  datatype Entry = Entry(path: Path, modified: int)

  /** One request for room: the limits, the clock reading, the entry that stays
      and the entries whose lock somebody else holds. */
  datatype Request = Request(maxBytes: int, ttl: int, now: int, keep: Option<Path>, held: set<Path>, additional: nat)

  predicate OlderFirst(a: Entry, b: Entry) {
    a.modified <= b.modified
  }

  predicate Expired(r: Request, modified: int) {
    r.ttl > 0 && r.now - modified > r.ttl
  }

  predicate Fits(r: Request, total: int) {
    r.maxBytes <= 0 || total + r.additional <= r.maxBytes
  }

  predicate Pinned(r: Request, d: Path) {
    Some(d) == r.keep || d in r.held
  }

  function Paths(es: seq<Entry>): set<Path> {
    set e | e in es :: e.path
  }

  /** The entries a listing offers for removal. */
  function Evictables(es: seq<Entry>, r: Request): seq<Entry> {
    if es == [] then []
    else (if Pinned(r, es[0].path) then [] else [es[0]]) + Evictables(es[1..], r)
  }

  /** The loop: total is what is on the disk before the first entry is looked at. */
  ghost function Evicted(files: map<Path, nat>, es: seq<Entry>, total: int, r: Request): seq<Entry> {
    if es == [] then []
    else if (Fits(r, total) && !Expired(r, es[0].modified)) || Pinned(r, es[0].path) then
      Evicted(files, es[1..], total, r)
    else
      [es[0]] + Evicted(files, es[1..], total - SizeOf(files, es[0].path), r)
  }

  ghost function Sizes(files: map<Path, nat>, es: seq<Entry>): nat {
    if es == [] then 0 else SizeOf(files, es[0].path) + Sizes(files, es[1..])
  }

  /** Once the request fits and nothing left is expired, nothing more goes. */
  lemma {:induction false} StopsWhenEnough(files: map<Path, nat>, es: seq<Entry>, total: int, r: Request)
    requires Fits(r, total) && forall e | e in es :: !Expired(r, e.modified)
    ensures Evicted(files, es, total, r) == []
  {
    if es != [] {
      StopsWhenEnough(files, es[1..], total, r);
    }
  }

  /** Why the i-th removal happened. */
  ghost predicate Needed(files: map<Path, nat>, out: seq<Entry>, total: int, r: Request, i: nat)
    requires i < |out|
  {
    Expired(r, out[i].modified) || !Fits(r, total - Sizes(files, out[..i]))
  }

  lemma {:induction false} EvictedIsNeeded(files: map<Path, nat>, es: seq<Entry>, total: int, r: Request)
    ensures forall i | 0 <= i < |Evicted(files, es, total, r)| :: Needed(files, Evicted(files, es, total, r), total, r, i)
  {
    var out := Evicted(files, es, total, r);
    if es == [] {
    } else if (Fits(r, total) && !Expired(r, es[0].modified)) || Pinned(r, es[0].path) {
      EvictedIsNeeded(files, es[1..], total, r);
    } else {
      var left := total - SizeOf(files, es[0].path);
      var rest := Evicted(files, es[1..], left, r);
      EvictedIsNeeded(files, es[1..], left, r);
      assert out == [es[0]] + rest;
      forall i | 0 <= i < |out| ensures Needed(files, out, total, r, i) {
        if i > 0 {
          assert Needed(files, rest, left, r, i - 1);
          assert out[..i][1..] == rest[..i - 1];
        }
      }
    }
  }

  /** What goes is the beginning of what is offered, and if that is not all, the
      request fits and the first entry left is not expired. */
  ghost predicate StopsInTime(files: map<Path, nat>, total: int, r: Request, out: seq<Entry>, all: seq<Entry>) {
    && out <= all
    && (|out| < |all| ==> Fits(r, total - Sizes(files, out)) && !Expired(r, all[|out|].modified))
  }

  lemma StopsInTimeStep(files: map<Path, nat>, total: int, r: Request, e: Entry, out: seq<Entry>, all: seq<Entry>)
    requires StopsInTime(files, total - SizeOf(files, e.path), r, out, all)
    ensures StopsInTime(files, total, r, [e] + out, [e] + all)
  {
    assert ([e] + out)[1..] == out;
    assert |out| < |all| ==> ([e] + all)[|out| + 1] == all[|out|];
  }

  /** The entries that go are the oldest of those offered, just enough of them. */
  lemma {:induction false} EvictedIsPrefix(files: map<Path, nat>, es: seq<Entry>, total: int, r: Request)
    requires Sorting.Sorted(OlderFirst, es)
    ensures StopsInTime(files, total, r, Evicted(files, es, total, r), Evictables(es, r))
  {
    if es == [] {
    } else if Pinned(r, es[0].path) {
      EvictedIsPrefix(files, es[1..], total, r);
      assert Evictables(es, r) == Evictables(es[1..], r);
    } else if Fits(r, total) && !Expired(r, es[0].modified) {
      forall e | e in es ensures !Expired(r, e.modified) {
        var i :| 0 <= i < |es| && es[i] == e;
        assert i == 0 || OlderFirst(es[0], es[i]);
      }
      StopsWhenEnough(files, es, total, r);
    } else {
      var left := total - SizeOf(files, es[0].path);
      EvictedIsPrefix(files, es[1..], left, r);
      StopsInTimeStep(files, total, r, es[0], Evicted(files, es[1..], left, r), Evictables(es[1..], r));
    }
  }

  lemma {:induction false} EvictablesAre(es: seq<Entry>, r: Request)
    ensures forall e :: e in Evictables(es, r) <==> e in es && !Pinned(r, e.path)
    ensures Sorting.Sorted(OlderFirst, es) ==> Sorting.Sorted(OlderFirst, Evictables(es, r))
  {
    if es != [] {
      EvictablesAre(es[1..], r);
    }
  }

  /******* The listing of a disk *******/

  /** A listing of exactly the entries on the disk, each once, oldest first. */
  ghost predicate IsListing(base: string, files: map<Path, nat>, dirs: map<Path, int>, es: seq<Entry>) {
    && Sorting.Sorted(OlderFirst, es)
    && (forall e | e in es :: e.path in dirs && e.modified == dirs[e.path])
    && Paths(es) == ListedSet(base, files, dirs)
    && forall i, j | 0 <= i < j < |es| :: es[i].path != es[j].path
  }

  /** Removing listed entries one after another frees exactly their sizes. */
  lemma {:induction false} RemovedSizes(files: map<Path, nat>, es: seq<Entry>)
    requires PrefixFree(Paths(es))
    requires forall i, j | 0 <= i < j < |es| :: es[i].path != es[j].path
    ensures Bytes(Outside(files, Paths(es))) == Bytes(files) - Sizes(files, es)
  {
    if es == [] {
      assert Paths(es) == {} && Outside(files, Paths(es)) == files;
    } else {
      var n := |es| - 1;
      assert es == es[..n] + [es[n]];
      assert Paths(es) == Paths(es[..n]) + {es[n].path};
      RemovedSizes(files, es[..n]);
      RemoveOne(files, Paths(es[..n]), es[n].path);
      SizesAppend(files, es[..n], [es[n]]);
    }
  }

  lemma {:induction false} SizesAppend(files: map<Path, nat>, es: seq<Entry>, more: seq<Entry>)
    ensures Sizes(files, es + more) == Sizes(files, es) + Sizes(files, more)
  {
    if es == [] {
      assert es + more == more;
    } else {
      assert (es + more)[1..] == es[1..] + more;
      SizesAppend(files, es[1..], more);
    }
  }

  /******* What it means *******/

  /** The entries that may go. */
  ghost function MayGo(base: string, files: map<Path, nat>, dirs: map<Path, int>, r: Request): set<Path> {
    set d | d in ListedSet(base, files, dirs) && !Pinned(r, d)
  }

  /** Bytes that no eviction can free: outside every entry, in the kept one, or in held ones. */
  ghost function PinnedBytes(base: string, files: map<Path, nat>, dirs: map<Path, int>, r: Request): nat {
    Bytes(Outside(files, MayGo(base, files, dirs, r)))
  }

  /** Least recently used first, every expired one, and no more than needed. */
  ghost predicate RightlyRemoved(base: string, files: map<Path, nat>, dirs: map<Path, int>, r: Request, removed: seq<Entry>) {
    && Paths(removed) <= MayGo(base, files, dirs, r)
    && (forall e | e in removed :: e.path in dirs && e.modified == dirs[e.path])
    && Sorting.Sorted(OlderFirst, removed)
    && (forall d, e | d in MayGo(base, files, dirs, r) - Paths(removed) && e in removed :: e.modified <= dirs[d])
    && (forall d | d in MayGo(base, files, dirs, r) && Expired(r, dirs[d]) :: d in Paths(removed))
    && (forall i | 0 <= i < |removed| && !Expired(r, removed[i].modified) ::
          !Fits(r, Bytes(Outside(files, Paths(removed[..i])))))
  }

  lemma EvictionIsRight(base: string, files: map<Path, nat>, dirs: map<Path, int>, es: seq<Entry>, r: Request, out: seq<Entry>)
    requires IsListing(base, files, dirs, es) && out == Evicted(files, es, Bytes(files), r)
    ensures RightlyRemoved(base, files, dirs, r, out)
  {
    var total := Bytes(files);
    var all := Evictables(es, r);
    EvictedIsPrefix(files, es, total, r);
    EvictedIsNeeded(files, es, total, r);
    EvictablesAre(es, r);
    assert out == all[..|out|];
    forall e | e in out ensures e.path in MayGo(base, files, dirs, r) {
      assert e in all && e.path in Paths(es);
    }
    forall d | d in MayGo(base, files, dirs, r) && d !in Paths(out)
      ensures !Expired(r, dirs[d])
      ensures forall e | e in out :: e.modified <= dirs[d]
    {
      StillThere(base, files, dirs, es, r, d);
    }
    forall i | 0 <= i < |out| && !Expired(r, out[i].modified)
      ensures !Fits(r, Bytes(Outside(files, Paths(out[..i]))))
    {
      assert Needed(files, out, total, r, i);
      ListingDistinct(base, files, dirs, es, r, i);
      RemovedSizes(files, out[..i]);
    }
  }

  /** Where a listed entry that may go stands among those offered. */
  lemma Offered(base: string, files: map<Path, nat>, dirs: map<Path, int>, es: seq<Entry>, r: Request, d: Path) returns (k: nat)
    requires IsListing(base, files, dirs, es) && d in MayGo(base, files, dirs, r)
    ensures k < |Evictables(es, r)| && Evictables(es, r)[k] == Entry(d, dirs[d])
  {
    EvictablesAre(es, r);
    assert d in Paths(es);
    var e :| e in es && e.path == d;
    assert e in Evictables(es, r);
    k :| k < |Evictables(es, r)| && Evictables(es, r)[k] == e;
  }

  /** An entry that may go and did not is unexpired and at least as recent as any that went. */
  lemma StillThere(base: string, files: map<Path, nat>, dirs: map<Path, int>, es: seq<Entry>, r: Request, d: Path)
    requires IsListing(base, files, dirs, es)
    requires d in MayGo(base, files, dirs, r) && d !in Paths(Evicted(files, es, Bytes(files), r))
    ensures !Expired(r, dirs[d])
    ensures forall e | e in Evicted(files, es, Bytes(files), r) :: e.modified <= dirs[d]
    ensures Fits(r, Bytes(files) - Sizes(files, Evicted(files, es, Bytes(files), r)))
  {
    var out := Evicted(files, es, Bytes(files), r);
    var all := Evictables(es, r);
    EvictedIsPrefix(files, es, Bytes(files), r);
    EvictablesAre(es, r);
    var k := Offered(base, files, dirs, es, r, d);
    assert forall i | 0 <= i < |out| :: out[i].path in Paths(out) && out[i] == all[i];
    assert k == |out| || OlderFirst(all[|out|], all[k]);
    forall f | f in out ensures f.modified <= dirs[d] {
      var j :| 0 <= j < |out| && out[j] == f;
      assert all[j] == f;
      assert OlderFirst(all[j], all[k]);
    }
  }

  lemma ListingDistinct(base: string, files: map<Path, nat>, dirs: map<Path, int>, es: seq<Entry>, r: Request, n: nat)
    requires IsListing(base, files, dirs, es) && n <= |Evicted(files, es, Bytes(files), r)|
    ensures var out := Evicted(files, es, Bytes(files), r)[..n];
      && PrefixFree(Paths(out))
      && (forall i, j | 0 <= i < j < |out| :: out[i].path != out[j].path)
  {
    ListingIsPrefixFree(base, files, dirs);
    EvictedIsPrefix(files, es, Bytes(files), r);
    EvictablesAre(es, r);
    EvictablesDistinct(es, r);
    var out := Evicted(files, es, Bytes(files), r)[..n];
    assert out == Evictables(es, r)[..n];
    forall e | e in out ensures e.path in Paths(es) {
      assert e in Evictables(es, r);
    }
  }

  lemma {:induction false} EvictablesDistinct(es: seq<Entry>, r: Request)
    requires forall i, j | 0 <= i < j < |es| :: es[i].path != es[j].path
    ensures forall i, j | 0 <= i < j < |Evictables(es, r)| :: Evictables(es, r)[i].path != Evictables(es, r)[j].path
  {
    if es != [] {
      EvictablesDistinct(es[1..], r);
      EvictablesAre(es[1..], r);
      forall e | e in Evictables(es[1..], r) ensures e.path != es[0].path {
        var k :| 0 <= k < |es[1..]| && es[1..][k] == e;
        assert es[k + 1] == e;
      }
    }
  }

  /** The request is refused exactly when the bytes that cannot be freed leave no
      room for it, however much was freed on the way. */
  lemma RefusalIsExact(base: string, files: map<Path, nat>, dirs: map<Path, int>, es: seq<Entry>, r: Request, out: seq<Entry>)
    requires IsListing(base, files, dirs, es) && out == Evicted(files, es, Bytes(files), r)
    ensures Fits(r, Bytes(Outside(files, Paths(out)))) <==> Fits(r, PinnedBytes(base, files, dirs, r))
  {
    var may := MayGo(base, files, dirs, r);
    ListingDistinct(base, files, dirs, es, r, |out|);
    assert out[..|out|] == out;
    RemovedSizes(files, out);
    EvictionIsRight(base, files, dirs, es, r, out);
    if d :| d in may && d !in Paths(out) {
      StillThere(base, files, dirs, es, r, d);
      OutsideFurther(files, Paths(out), may);
    } else {
      assert Paths(out) == may;
    }
  }

  lemma OutsideFurther(files: map<Path, nat>, ds: set<Path>, more: set<Path>)
    requires ds <= more
    ensures Bytes(Outside(files, more)) <= Bytes(Outside(files, ds))
  {
    forall p | Covered(ds, p) ensures Covered(more, p) {
      var d :| d in ds && d <= p;
      assert d in more;
    }
    assert Outside(Outside(files, ds), more) == Outside(files, more);
    OutsideShrinks(Outside(files, ds), more);
  }

  /** What lies in the kept entry stays, though eviction removes whole trees. */
  lemma KeptStays<V>(base: string, files: map<Path, nat>, dirs: map<Path, int>, r: Request, gone: set<Path>, m: map<Path, V>, p: Path)
    requires r.keep.Some? && r.keep.value in ListedSet(base, files, dirs) && r.keep.value <= p && p in m
    requires gone <= MayGo(base, files, dirs, r)
    ensures p in Outside(m, gone)
  {
    ListingIsPrefixFree(base, files, dirs);
    if d :| d in gone && d <= p {
      PrefixesCompare(d, r.keep.value, p);
    }
  }

  /******* One turn of the loop *******/

  /** An entry that the loop has not reached has not been removed, and lies apart from all that were. */
  lemma NotYet(base: string, files: map<Path, nat>, dirs: map<Path, int>, es: seq<Entry>, removed: seq<Entry>, i: nat)
    requires IsListing(base, files, dirs, es) && i < |es|
    requires Paths(removed) <= Paths(es[..i])
    ensures es[i].path !in Paths(removed)
    ensures PrefixFree(Paths(removed) + {es[i].path})
  {
    ListingIsPrefixFree(base, files, dirs);
    forall e | e in es[..i] ensures e.path != es[i].path {
      var j :| 0 <= j < i && es[j] == e;
    }
    assert Paths(es[..i]) + {es[i].path} <= Paths(es);
  }

  lemma OutsideOneMore<V>(m: map<Path, V>, removed: set<Path>, d: Path)
    ensures Outside(m, removed + {d}) == Outside(Outside(m, removed), {d})
  {
    assert d in removed + {d} && d in {d};
    forall p ensures Covered(removed + {d}, p) <==> Covered(removed, p) || Covered({d}, p) {
      if Covered(removed, p) {
        var e :| e in removed && e <= p;
        assert e in removed + {d};
      }
    }
  }

  /** What is pinned depends on the kept entry and the held locks alone. */
  lemma SamePins(base: string, files: map<Path, nat>, dirs: map<Path, int>, a: Request, b: Request)
    requires a.keep == b.keep && a.held == b.held
    ensures PinnedBytes(base, files, dirs, a) == PinnedBytes(base, files, dirs, b)
  {
    assert MayGo(base, files, dirs, a) == MayGo(base, files, dirs, b);
  }

  /** Removing nothing leaves everything. */
  lemma NothingRemoved(files: map<Path, nat>, dirs: map<Path, int>)
    ensures Outside(files, Paths([])) == files && Outside(dirs, Paths([])) == dirs
    ensures Under(files, []) == files
  {
  }

  /** One call: the disk as it was, its listing, and the request. */
  datatype Job = Job(base: string, files: map<Path, nat>, dirs: map<Path, int>, es: seq<Entry>, r: Request) {
    ghost predicate Listing() {
      IsListing(base, files, dirs, es)
    }

    /** What a whole run of the loop removes. */
    ghost function Out(): seq<Entry> {
      Evicted(files, es, Bytes(files), r)
    }
  }

  predicate Stays(r: Request, total: int, e: Entry) {
    (Fits(r, total) && !Expired(r, e.modified)) || Pinned(r, e.path)
  }

  /** Going on from entry i, with `removed` gone, the loop will have removed `out`. */
  ghost predicate LeadsTo(j: Job, i: nat, removed: seq<Entry>, total: int, out: seq<Entry>)
    requires i <= |j.es|
    decreases |j.es| - i
  {
    if i == |j.es| then removed == out
    else if Stays(j.r, total, j.es[i]) then LeadsTo(j, i + 1, removed, total, out)
    else LeadsTo(j, i + 1, removed + [j.es[i]], total - SizeOf(j.files, j.es[i].path), out)
  }

  lemma {:induction false} LeadsToEvicted(j: Job, i: nat, removed: seq<Entry>, total: int)
    requires i <= |j.es|
    ensures LeadsTo(j, i, removed, total, removed + Evicted(j.files, j.es[i..], total, j.r))
    decreases |j.es| - i
  {
    if i == |j.es| {
      assert removed + [] == removed;
    } else if Stays(j.r, total, j.es[i]) {
      assert j.es[i..][1..] == j.es[i + 1..];
      LeadsToEvicted(j, i + 1, removed, total);
    } else {
      assert j.es[i..][1..] == j.es[i + 1..];
      var left := total - SizeOf(j.files, j.es[i].path);
      var rest := Evicted(j.files, j.es[i + 1..], left, j.r);
      LeadsToEvicted(j, i + 1, removed + [j.es[i]], left);
      assert removed + [j.es[i]] + rest == removed + ([j.es[i]] + rest);
    }
  }

  /** What the loop has done when it comes to entry i: files2 and dirs2 are the
      disk by then, total its bytes. */
  ghost predicate Progress(j: Job, i: nat, removed: seq<Entry>, total: int, files2: map<Path, nat>, dirs2: map<Path, int>) {
    match j
    case Job(_, files, dirs, es, _) =>
      && i <= |es|
      && files2 == Outside(files, Paths(removed)) && dirs2 == Outside(dirs, Paths(removed))
      && Paths(removed) <= Paths(es[..i])
      && LeadsTo(j, i, removed, total, j.Out())
      && total == Bytes(files2)
  }

  lemma Begin(j: Job)
    ensures Progress(j, 0, [], Bytes(j.files), j.files, j.dirs)
  {
    assert j.es[0..] == j.es && [] + j.Out() == j.Out();
    LeadsToEvicted(j, 0, [], Bytes(j.files));
    NothingRemoved(j.files, j.dirs);
  }

  lemma Skip(j: Job, i: nat, removed: seq<Entry>, total: int, files2: map<Path, nat>, dirs2: map<Path, int>)
    requires Progress(j, i, removed, total, files2, dirs2)
    requires i < |j.es| && Stays(j.r, total, j.es[i])
    ensures Progress(j, i + 1, removed, total, files2, dirs2)
  {
    assert Paths(j.es[..i]) <= Paths(j.es[..i + 1]);
  }

  lemma PathsAppend(es: seq<Entry>, e: Entry)
    ensures Paths(es + [e]) == Paths(es) + {e.path}
  {
    forall d | d in Paths(es) + {e.path} ensures d in Paths(es + [e]) {
      if d in Paths(es) {
        var f :| f in es && f.path == d;
        assert f in es + [e];
      } else {
        assert e in es + [e];
      }
    }
  }

  /** The size measured now is the size the entry had at first, and is what the disk loses. */
  lemma Remove(j: Job, i: nat, removed: seq<Entry>, total: int, files2: map<Path, nat>, dirs2: map<Path, int>, size: nat)
    requires j.Listing() && Progress(j, i, removed, total, files2, dirs2)
    requires i < |j.es| && !Stays(j.r, total, j.es[i]) && size == SizeOf(files2, j.es[i].path)
    ensures Progress(j, i + 1, removed + [j.es[i]], total - size,
              Outside(files2, {j.es[i].path}), Outside(dirs2, {j.es[i].path}))
  {
    var e := j.es[i];
    var was, more := Paths(removed), Paths(removed + [e]);
    assert more == was + {e.path} by { PathsAppend(removed, e); }
    assert more <= Paths(j.es[..i + 1]) by {
      assert j.es[..i + 1] == j.es[..i] + [e];
      PathsAppend(j.es[..i], e);
    }
    NotYet(j.base, j.files, j.dirs, j.es, removed, i);
    RemoveOne(j.files, was, e.path);
    OutsideOneMore(j.dirs, was, e.path);
  }

  lemma Finish(j: Job, removed: seq<Entry>, total: int, files2: map<Path, nat>, dirs2: map<Path, int>)
    requires j.Listing() && Progress(j, |j.es|, removed, total, files2, dirs2)
    ensures RightlyRemoved(j.base, j.files, j.dirs, j.r, removed)
    ensures Fits(j.r, total) <==> Fits(j.r, PinnedBytes(j.base, j.files, j.dirs, j.r))
  {
    EvictionIsRight(j.base, j.files, j.dirs, j.es, j.r, removed);
    RefusalIsExact(j.base, j.files, j.dirs, j.es, j.r, removed);
  }
}
