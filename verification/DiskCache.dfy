/**
 The disk below one user's cache root and the budget that keeps it bounded.
 The loops follow internal/diskcache/cache.go; what they achieve is said in
 the terms of module Eviction.
 */
module DiskCache {
  import opened Wrappers
  import opened DiskTree
  import opened Eviction
  import opened Quota
  import Sorting

  class Disk {
    const base: string
    var files: map<Path, nat>
    var dirs: map<Path, int>
    /** The files after every change so far, up to the present ones. */
    ghost var history: seq<map<Path, nat>>

    constructor (base: string)
      ensures this.base == base && files == map[] && dirs == map[] && history == [files]
      ensures Tree()
    {
      this.base := base;
      files, dirs, history := map[], map[], [map[]];
    }

    /** Every file and directory lies in directories, no path is both, and the
        record of changes ends with the present. */
    ghost predicate Tree()
      reads this
    {
      IsTree(files, dirs) && history != [] && history[|history| - 1] == files
    }

    ghost function Used(): nat
      reads this
    {
      Bytes(files)
    }

    /** The sum over the regular files at or below a path. */
    method Size(d: Path) returns (total: nat)
      ensures total == SizeOf(files, d)
    {
      total := 0;
      var left := files;
      assert Under(files, d) - Under(files, d).Keys == map[];
      while left != map[]
        invariant left.Keys <= files.Keys && (forall p | p in left :: left[p] == files[p])
        invariant total + Bytes(Under(left, d)) == SizeOf(files, d)
        decreases left.Keys
      {
        var p :| p in left;
        if d <= p {
          total := total + left[p];
          BytesWithout(Under(left, d), p);
          assert Under(left - {p}, d) == Under(left, d) - {p};
        } else {
          assert Under(left - {p}, d) == Under(left, d);
        }
        left := left - {p};
      }
    }

    method RemoveAll(d: Path)
      requires Tree()
      modifies this
      ensures Tree()
      ensures files == Outside(old(files), {d}) && dirs == Outside(old(dirs), {d})
      ensures history == old(history) + [files] && Extends(old(history), history, 0)
    {
      OutsideShrinks(files, {d});
      OutsideOne(files, d);
      OutsideOne(dirs, d);
      RemovalKeepsTree(files, dirs, d);
      files := map p | p in files && !(d <= p) :: files[p];
      dirs := map p | p in dirs && !(d <= p) :: dirs[p];
      history := history + [files];
    }

    predicate Present(p: Path)
      reads this
    {
      p in files || p in dirs
    }

    /** Gives what is at one path, and everything below it, another place. */
    method Rename(from: Path, to: Path)
      requires Tree() && from != [] && to != [] && Present(from) && !Present(to)
      requires !(from <= to) && forall i | 0 < i < |to| :: to[..i] in dirs
      modifies this
      ensures Tree() && Used() == old(Used())
      ensures Image(old(files), files, Renaming(from, to)) && Image(old(dirs), dirs, Renaming(from, to))
      ensures Extends(old(history), history, 0)
    {
      NothingPresentBelow(to);
      RenamingOnTree(files, dirs, from, to);
      RenamedIsImage(files, from, to);
      RenamedIsImage(dirs, from, to);
      Become(Renamed(files, from, to), Renamed(dirs, from, to));
    }

    method Become(newFiles: map<Path, nat>, newDirs: map<Path, int>)
      requires Tree() && IsTree(newFiles, newDirs) && Bytes(newFiles) == Bytes(files)
      modifies this
      ensures Tree() && files == newFiles && dirs == newDirs && Extends(old(history), history, 0)
    {
      ExtendsOne(history, newFiles, 0);
      files, dirs, history := newFiles, newDirs, history + [newFiles];
    }

    lemma NothingPresentBelow(d: Path)
      requires Tree() && d != [] && !Present(d)
      ensures forall p | p in files || p in dirs :: !(d <= p)
    {
      if p :| (p in files || p in dirs) && d <= p {
        PrefixIsCut(d, p);
        assert false;
      }
    }

    /** Removes an empty directory. */
    method RemoveDirectory(d: Path)
      requires Tree() && d in dirs && forall p | Present(p) && d <= p :: p == d
      modifies this`dirs
      ensures Tree() && dirs == old(dirs) - {d}
    {
      forall p, i | Present(p) && 0 < i < |p| ensures p[..i] == d ==> p == d {
        assert p[..i] <= p;
      }
      dirs := dirs - {d};
    }

    /** The names right below a directory. */
    function Names(at: Path): set<string>
      reads this
    {
      set p | p in files.Keys + dirs.Keys && |p| == |at| + 1 && at <= p :: p[|at|]
    }

    lemma NamesArePresent(at: Path)
      ensures forall n :: n in Names(at) <==> Present(at + [n])
    {
      forall n | Present(at + [n]) ensures n in Names(at) {
        assert (at + [n])[|at|] == n;
      }
      forall n | n in Names(at) ensures Present(at + [n]) {
        var p :| p in files.Keys + dirs.Keys && |p| == |at| + 1 && at <= p && p[|at|] == n;
        assert p == at + [n];
      }
    }

    /** Gives a file a length, creating it if there is none. */
    method SetFile(p: Path, size: nat)
      requires Tree() && p != [] && p !in dirs && forall i | 0 < i < |p| :: p[..i] in dirs
      modifies this`files, this`history
      ensures Tree()
      ensures files == old(files)[p := size] && history == old(history) + [files]
    {
      files := files[p := size];
      history := history + [files];
    }

    /** Makes a directory and those above it; a file in the way makes it fail. */
    method MkdirAll(p: Path, now: int) returns (ok: bool)
      requires Tree()
      modifies this`dirs
      ensures Tree()
      ensures ok <==> files.Keys !! Prefixes(p)
      ensures ok ==> dirs.Keys == old(dirs).Keys + Prefixes(p)
      ensures !ok ==> dirs == old(dirs)
      ensures forall d | d in old(dirs) :: d in dirs && dirs[d] == old(dirs)[d]
    {
      if !(files.Keys !! Prefixes(p)) {
        return false;
      }
      DirectoriesKeepTree(files, dirs, p, now);
      dirs := dirs + map d | d in Prefixes(p) && d !in dirs :: now;
      ok := true;
    }

    /** The directories right below a path. */
    function Children(at: Path): set<Path>
      reads this
    {
      set d | d in dirs && |d| == |at| + 1 && at <= d
    }

    ghost function Below(at: Path): set<Path>
      reads this
    {
      set d | d in dirs && at < d
    }

    /** The entries at or below some directories. */
    ghost function ListedBelow(through: set<Path>): set<Path>
      reads this
    {
      set d | d in dirs && Listed(base, files, dirs, d) && exists c | c in through :: c <= d
    }

    /** The walk from a directory that is no entry itself and lies in none. It
        skips .locks, and what lies below an entry. */
    method Walk(at: Path) returns (found: set<Path>)
      requires Tree()
      requires at != [] ==> at[0] != ".locks"
      requires forall i | 0 < i <= |at| :: !Candidate(base, files, dirs, at[..i])
      ensures found == set d | d in Below(at) && Listed(base, files, dirs, d)
      decreases Below(at)
    {
      found := {};
      var todo := Children(at);
      ghost var done := {};
      while todo != {}
        invariant done + todo == Children(at) && done !! todo
        invariant found == ListedBelow(done)
        decreases todo
      {
        var c :| c in todo;
        var more := {};
        if c[0] == ".locks" {
          LocksHoldNothing(c);
        } else if Candidate(base, files, dirs, c) {
          more := {c};
          OnlyItself(at, c);
        } else {
          Enter(at, c);
          more := Walk(c);
          BelowOnly(c);
        }
        OneMore(done, c);
        found := found + more;
        todo := todo - {c};
        done := done + {c};
      }
      BelowIsBelowChildren(at);
    }

    /** A child that is no entry can be walked in its turn. */
    lemma Enter(at: Path, c: Path)
      requires c in Children(at) && !Candidate(base, files, dirs, c)
      requires forall i | 0 < i <= |at| :: !Candidate(base, files, dirs, at[..i])
      ensures forall i | 0 < i <= |c| :: !Candidate(base, files, dirs, c[..i])
      ensures Below(c) < Below(at)
    {
      assert at < c && c !in Below(c) && c in Below(at);
      forall i | 0 < i <= |c| ensures !Candidate(base, files, dirs, c[..i]) {
        if i == |c| { assert c[..i] == c; } else { assert c[..i] == at[..i]; }
      }
    }

    lemma OneMore(done: set<Path>, c: Path)
      ensures ListedBelow(done + {c}) == ListedBelow(done) + ListedBelow({c})
    {
    }

    lemma BelowIsBelowChildren(at: Path)
      requires Tree()
      ensures ListedBelow(Children(at)) == set d | d in Below(at) && Listed(base, files, dirs, d)
    {
      forall d | d in Below(at) ensures exists c | c in Children(at) :: c <= d {
        assert d == d[..|at| + 1] || d[..|at| + 1] in dirs;
        assert d[..|at| + 1] in Children(at) && d[..|at| + 1] <= d;
      }
    }

    lemma LocksHoldNothing(c: Path)
      requires c != [] && c[0] == ".locks"
      ensures ListedBelow({c}) == {}
    {
      forall d | c <= d ensures !Listed(base, files, dirs, d) {
        assert d[0] == c[0];
      }
    }

    lemma OnlyItself(at: Path, c: Path)
      requires c in Children(at) && c[0] != ".locks" && Candidate(base, files, dirs, c)
      requires forall i | 0 < i <= |at| :: !Candidate(base, files, dirs, at[..i])
      ensures ListedBelow({c}) == {c}
    {
      forall i | 0 < i < |c| ensures !Candidate(base, files, dirs, c[..i]) {
        assert c[..i] == at[..i];
      }
      assert Listed(base, files, dirs, c);
      forall d | d in ListedBelow({c}) ensures d == c {
        assert d[..|c|] == c;
      }
    }

    lemma BelowOnly(c: Path)
      requires c != [] && !Candidate(base, files, dirs, c)
      ensures (set d | d in Below(c) && Listed(base, files, dirs, d)) == ListedBelow({c})
    {
      forall d | d in ListedBelow({c}) ensures c < d {
        assert c <= d && (|d| == |c| ==> d == c);
      }
    }

    /** The listing, oldest first; entries of one age come in any order. */
    method Entries() returns (es: seq<Entry>)
      requires Tree()
      ensures IsListing(base, files, dirs, es)
    {
      var found := Walk([]);
      assert found == ListedSet(base, files, dirs);
      var unsorted: seq<Entry> := [];
      ghost var taken: set<Entry> := {};
      ghost var all := set d | d in found :: Entry(d, dirs[d]);
      while found != {}
        invariant found <= ListedSet(base, files, dirs)
        invariant Sorting.Lists(unsorted, taken)
        invariant taken == set d | d in ListedSet(base, files, dirs) - found :: Entry(d, dirs[d])
        decreases found
      {
        var d :| d in found;
        Sorting.ListsAppend(unsorted, taken, Entry(d, dirs[d]));
        unsorted := unsorted + [Entry(d, dirs[d])];
        taken := taken + {Entry(d, dirs[d])};
        found := found - {d};
      }
      es := Sorting.Sort(OlderFirst, unsorted);
      Sorting.PermutationLists(unsorted, es, taken);
      ListingOf(es, taken);
    }

    lemma ListingOf(es: seq<Entry>, taken: set<Entry>)
      requires Sorting.Sorted(OlderFirst, es) && Sorting.Lists(es, taken)
      requires taken == set d | d in ListedSet(base, files, dirs) :: Entry(d, dirs[d])
      ensures IsListing(base, files, dirs, es)
    {
      forall d | d in ListedSet(base, files, dirs) ensures d in Paths(es) {
        assert Entry(d, dirs[d]) in taken;
      }
      forall d | d in Paths(es) ensures d in ListedSet(base, files, dirs) {
        var e :| e in es && e.path == d;
        assert e in taken;
      }
      forall i, j | 0 <= i < j < |es| ensures es[i].path != es[j].path {
        assert es[i] in taken && es[j] in taken;
      }
    }
  }

  /** The budget of one writer: a limit in bytes, an age limit, and the room it
      knows to be free. Zero or less switches a limit off. */
  class Budget {
    const disk: Disk
    const maxBytes: int
    const ttl: int
    var keep: Option<Path>
    var ready: bool
    var free: int

    constructor (disk: Disk, maxBytes: int, ttl: int)
      ensures this.disk == disk && this.maxBytes == maxBytes && this.ttl == ttl
      ensures keep == None && !ready && free == 0
    {
      this.disk, this.maxBytes, this.ttl := disk, maxBytes, ttl;
      keep, ready, free := None, false, 0;
    }

    ghost function Books(): Book
      reads this, disk
    {
      Book(maxBytes, disk.files, ready, free)
    }

    /** The kept entry is there, and its name makes it an entry. */
    predicate Keeping()
      reads this, disk
    {
      keep.Some? && NamedEntry(disk.base, keep.value) && keep.value in disk.dirs
    }

    ghost function ToRequest(additional: nat, now: int, held: set<Path>): Request
      reads this
    {
      Request(maxBytes, ttl, now, keep, held, additional)
    }

    /** Bytes that stay whatever is evicted. */
    ghost function Unfreeable(now: int, held: set<Path>): nat
      reads this, disk
    {
      PinnedBytes(disk.base, disk.files, disk.dirs, ToRequest(0, now, held))
    }

    /** A limit is on, and the request is not larger than the whole cache may be. */
    predicate HasWork(additional: nat) {
      (maxBytes > 0 && additional <= maxBytes) || (maxBytes <= 0 && ttl > 0)
    }

    /** The locks that other processes hold and the clock are given by the caller. */
    method MakeRoom(additional: nat, now: int, held: set<Path>) returns (ok: bool, ghost removed: seq<Entry>)
      requires disk.Tree()
      modifies disk
      ensures disk.Tree()
      ensures disk.files == Outside(old(disk.files), Paths(removed))
      ensures disk.dirs == Outside(old(disk.dirs), Paths(removed))
      ensures Extends(old(disk.history), disk.history, 0)
      ensures ok <==> (maxBytes > 0 ==> old(Unfreeable(now, held)) + additional <= maxBytes)
      ensures ok && maxBytes > 0 ==> disk.Used() + additional <= maxBytes
      ensures Spends(old(Books()), Books(), 0)
      ensures if HasWork(additional)
        then RightlyRemoved(disk.base, old(disk.files), old(disk.dirs), ToRequest(additional, now, held), removed)
        else removed == []
    {
      ghost var files, dirs, r := disk.files, disk.dirs, ToRequest(additional, now, held);
      removed := [];
      ExtendsItself(disk.history, 0);
      SamePins(disk.base, files, dirs, r, ToRequest(0, now, held));
      NothingRemoved(files, dirs);
      if maxBytes <= 0 && ttl <= 0 {
        return true, [];
      }
      if maxBytes > 0 && additional > maxBytes {
        return false, [];
      }
      var total: int := disk.Size([]);
      var es := disk.Entries();
      ghost var j := Job(disk.base, files, dirs, es, r);
      total, removed := Sweep(j, es, total, additional, now, held);
      Finish(j, removed, total, disk.files, disk.dirs);
      OutsideShrinks(files, Paths(removed));
      ok := maxBytes <= 0 || total + additional <= maxBytes;
    }

    /** The loop over the entries, oldest first. */
    method Sweep(ghost j: Job, es: seq<Entry>, before: int, additional: nat, now: int, held: set<Path>)
      returns (total: int, ghost removed: seq<Entry>)
      requires disk.Tree() && j.Listing() && j.es == es && j.r == ToRequest(additional, now, held)
      requires disk.files == j.files && disk.dirs == j.dirs && before == Bytes(disk.files)
      modifies disk
      ensures disk.Tree()
      ensures Progress(j, |es|, removed, total, disk.files, disk.dirs)
      ensures Extends(old(disk.history), disk.history, 0)
    {
      ghost var files, dirs, first := disk.files, disk.dirs, disk.history;
      total, removed := before, [];
      Begin(j);
      ExtendsItself(first, 0);
      for i := 0 to |es|
        invariant disk.Tree()
        invariant disk.files == files && disk.dirs == dirs
        invariant Progress(j, i, removed, total, files, dirs)
        invariant Extends(first, disk.history, 0)
      {
        ghost var history := disk.history;
        var gone, size := Visit(es[i], total, additional, now, held);
        ExtendsOn(first, history, disk.history, 0);
        if gone {
          Remove(j, i, removed, total, files, dirs, size);
          removed := removed + [es[i]];
          total := total - size;
          files, dirs := Outside(files, {es[i].path}), Outside(dirs, {es[i].path});
        } else {
          Skip(j, i, removed, total, files, dirs);
        }
        assert Progress(j, i + 1, removed, total, files, dirs);
      }
    }

    /** One turn of the loop: an entry goes unless the request fits and the entry
        is not expired, or it is the kept one, or its lock is held. */
    method Visit(e: Entry, total: int, additional: nat, now: int, held: set<Path>) returns (gone: bool, size: nat)
      requires disk.Tree()
      modifies disk
      ensures disk.Tree()
      ensures gone <==> !Stays(ToRequest(additional, now, held), total, e)
      ensures gone ==> size == SizeOf(old(disk.files), e.path)
      ensures gone ==> disk.files == Outside(old(disk.files), {e.path}) && disk.dirs == Outside(old(disk.dirs), {e.path})
      ensures !gone ==> disk.files == old(disk.files) && disk.dirs == old(disk.dirs)
      ensures Extends(old(disk.history), disk.history, 0)
    {
      var expired := ttl > 0 && now - e.modified > ttl;
      if (maxBytes <= 0 || total + additional <= maxBytes) && !expired {
        return false, 0;
      }
      if Some(e.path) == keep {
        return false, 0;
      }
      if e.path in held {
        return false, 0;
      }
      size := disk.Size(e.path);
      disk.RemoveAll(e.path);
      gone := true;
    }

    /** Accounts for growth before it is written. With room in hand nothing on the
        disk is touched; otherwise room is made and what is free is measured again. */
    method Reserve(growth: nat, now: int, held: set<Path>) returns (ok: bool)
      requires disk.Tree()
      modifies this`ready, this`free, disk
      ensures disk.Tree()
      ensures Reserved(old(Books()), Books(), growth, ok)
      ensures Extends(old(disk.history), disk.history, 0)
      ensures maxBytes > 0 ==>
        (ok <==> old(ready && growth <= free) || old(Unfreeable(now, held)) + growth <= maxBytes)
      ensures disk.files.Keys <= old(disk.files.Keys) && disk.dirs.Keys <= old(disk.dirs.Keys)
      ensures old(Keeping()) ==> Keeping() && (forall p | keep.value <= p ::
        && (p in old(disk.files) ==> p in disk.files && disk.files[p] == old(disk.files[p]))
        && (p in old(disk.dirs) ==> p in disk.dirs))
    {
      if maxBytes <= 0 {
        return true;
      }
      if !ready || growth > free {
        ghost var base, files, dirs, r := disk.base, disk.files, disk.dirs, ToRequest(growth, now, held);
        var made, removed := MakeRoom(growth, now, held);
        StaysUnderKeep(base, files, dirs, r, Paths(removed));
        if !made {
          return false;
        }
        var used := disk.Size([]);
        NothingRemoved(disk.files, disk.dirs);
        free := maxBytes - used;
        ready := true;
      }
      if growth > free {
        return false;
      }
      free := free - growth;
      ok := true;
    }

    lemma StaysUnderKeep(base: string, files: map<Path, nat>, dirs: map<Path, int>, r: Request, gone: set<Path>)
      requires gone <= MayGo(base, files, dirs, r)
      ensures r.keep.Some? && NamedEntry(base, r.keep.value) && r.keep.value in dirs ==>
        && (forall p | p in files && r.keep.value <= p :: p in Outside(files, gone))
        && (forall p | p in dirs && r.keep.value <= p :: p in Outside(dirs, gone))
    {
      if r.keep.Some? && NamedEntry(base, r.keep.value) && r.keep.value in dirs {
        NamedEntryIsListed(base, files, dirs, r.keep.value);
        forall p | p in files && r.keep.value <= p ensures p in Outside(files, gone) {
          KeptStays(base, files, dirs, r, gone, files, p);
        }
        forall p | p in dirs && r.keep.value <= p ensures p in Outside(dirs, gone) {
          KeptStays(base, files, dirs, r, gone, dirs, p);
        }
      }
    }
  }
}
