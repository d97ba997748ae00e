/**
 The part of a disk below one user's cache root: regular files with their
 sizes, directories with their modification times. Paths are relative to the
 root, one string per component.
 */
module DiskTree {

  type Path = seq<string>

  const METADATA := "metadata.json"

  /******* Bytes *******/

  ghost function Bytes(files: map<Path, nat>): nat
    decreases files.Keys
  {
    if files == map[] then 0 else
      var p :| p in files;
      files[p] + Bytes(files - {p})
  }

  lemma {:induction false} BytesWithout(files: map<Path, nat>, p: Path)
    requires p in files
    ensures Bytes(files) == files[p] + Bytes(files - {p})
    decreases files.Keys
  {
    var q :| q in files && Bytes(files) == files[q] + Bytes(files - {q});
    if q != p {
      BytesWithout(files - {q}, p);
      BytesWithout(files - {p}, q);
      assert files - {q} - {p} == files - {p} - {q};
    }
  }

  /** Every file lies in exactly one of two parts. */
  ghost predicate Splits(files: map<Path, nat>, a: map<Path, nat>, b: map<Path, nat>) {
    a.Keys !! b.Keys && files == a + b
  }

  lemma {:induction false} BytesSplit(files: map<Path, nat>, a: map<Path, nat>, b: map<Path, nat>)
    requires Splits(files, a, b)
    ensures Bytes(files) == Bytes(a) + Bytes(b)
    decreases a.Keys
  {
    if a == map[] {
      assert files == b;
    } else {
      var p :| p in a;
      BytesWithout(files, p);
      BytesWithout(a, p);
      BytesSplit(files - {p}, a - {p}, b);
    }
  }

  /** Writing one file changes the sum by the change of that file. */
  lemma BytesUpdate(files: map<Path, nat>, p: Path, size: nat)
    ensures Bytes(files[p := size]) == Bytes(files) - (if p in files then files[p] else 0) + size
  {
    BytesWithout(files[p := size], p);
    assert files[p := size] - {p} == files - {p};
    if p in files {
      BytesWithout(files, p);
    } else {
      assert files - {p} == files;
    }
  }

  /** What lies at or below a path, and what lies at or below none of some paths. */
  ghost function Under(files: map<Path, nat>, d: Path): map<Path, nat> {
    map p | p in files && d <= p :: files[p]
  }

  predicate Covered(ds: set<Path>, p: Path) {
    exists d | d in ds :: d <= p
  }

  ghost function Outside<V>(m: map<Path, V>, ds: set<Path>): map<Path, V> {
    map p | p in m && !Covered(ds, p) :: m[p]
  }

  lemma OutsideOne<V>(m: map<Path, V>, d: Path)
    ensures Outside(m, {d}) == map p | p in m && !(d <= p) :: m[p]
  {
    forall p ensures Covered({d}, p) <==> d <= p {
      assert d in {d};
    }
  }

  ghost function SizeOf(files: map<Path, nat>, d: Path): nat {
    Bytes(Under(files, d))
  }

  lemma OutsideShrinks(files: map<Path, nat>, ds: set<Path>)
    ensures Bytes(Outside(files, ds)) <= Bytes(files)
  {
    BytesSplit(files, map p | p in files && Covered(ds, p) :: files[p], Outside(files, ds));
  }

  /** No path of the set lies below another one. */
  ghost predicate PrefixFree(ds: set<Path>) {
    forall d, e | d in ds && e in ds && d <= e :: d == e
  }

  lemma PrefixIsCut(d: Path, p: Path)
    requires d <= p
    ensures p[..|d|] == d && (|d| == |p| ==> p == d)
  {
  }

  /** Two prefixes of one path are comparable. */
  lemma PrefixesCompare(d: Path, e: Path, p: Path)
    requires d <= p && e <= p
    ensures d <= e || e <= d
  {
    if |d| <= |e| {
      assert d == p[..|d|] == e[..|d|];
    } else {
      assert e == p[..|e|] == d[..|e|];
    }
  }

  /** In a prefix-free set, removing one entry takes nothing from another: its
      size is the same before and after, and is subtracted once. */
  lemma RemoveOne(files: map<Path, nat>, removed: set<Path>, d: Path)
    requires PrefixFree(removed + {d}) && d !in removed
    ensures Under(Outside(files, removed), d) == Under(files, d)
    ensures Outside(files, removed + {d}) == Outside(Outside(files, removed), {d})
    ensures Bytes(Outside(files, removed)) == SizeOf(files, d) + Bytes(Outside(files, removed + {d}))
  {
    var left := Outside(files, removed);
    forall p | p in files && d <= p ensures !Covered(removed, p) {
      if e :| e in removed && e <= p {
        PrefixesCompare(d, e, p);
        assert false;
      }
    }
    assert Under(left, d) == Under(files, d);
    forall p | p in files
      ensures Covered(removed + {d}, p) <==> Covered(removed, p) || d <= p
    {
      if Covered(removed, p) {
        var e :| e in removed && e <= p;
        assert e in removed + {d};
      }
      if d <= p {
        assert d in removed + {d};
      }
    }
    forall p ensures Covered({d}, p) <==> d <= p {
      if d <= p { assert d in {d}; }
    }
    assert Outside(files, removed + {d}) == Outside(left, {d});
    BytesSplit(left, Under(left, d), Outside(left, {d}));
  }

  /******* The shape of a disk *******/

  /** Every file and directory lies in directories, and no path is both. */
  ghost predicate IsTree(files: map<Path, nat>, dirs: map<Path, int>) {
    && files.Keys !! dirs.Keys && [] !in files && [] !in dirs
    && forall p, i | (p in files || p in dirs) && 0 < i < |p| :: p[..i] in dirs
  }

  lemma RemovalKeepsTree(files: map<Path, nat>, dirs: map<Path, int>, d: Path)
    requires IsTree(files, dirs)
    ensures IsTree(Outside(files, {d}), Outside(dirs, {d}))
  {
    OutsideOne(files, d);
    OutsideOne(dirs, d);
    forall p, i | (p in Outside(files, {d}) || p in Outside(dirs, {d})) && 0 < i < |p|
      ensures p[..i] in Outside(dirs, {d})
    {
      assert d <= p[..i] ==> d <= p;
    }
  }

  function Prefixes(p: Path): set<Path> {
    set i | 0 < i <= |p| :: p[..i]
  }

  lemma PrefixesOfPrefix(p: Path, q: Path, i: nat)
    requires q in Prefixes(p) && 0 < i <= |q|
    ensures q[..i] in Prefixes(p)
  {
    var k :| 0 < k <= |p| && q == p[..k];
    assert q[..i] == p[..i];
  }

  lemma DirectoriesKeepTree(files: map<Path, nat>, dirs: map<Path, int>, p: Path, now: int)
    requires IsTree(files, dirs) && files.Keys !! Prefixes(p)
    ensures IsTree(files, dirs + map d | d in Prefixes(p) && d !in dirs :: now)
  {
    var more := dirs + map d | d in Prefixes(p) && d !in dirs :: now;
    forall q, i | (q in files || q in more) && 0 < i < |q| ensures q[..i] in more {
      if q in Prefixes(p) {
        PrefixesOfPrefix(p, q, i);
      }
    }
  }

  /******* Moving things *******/

  /** The second map is the first one with every path moved. */
  ghost predicate Image<V>(m: map<Path, V>, moved: map<Path, V>, f: Path -> Path) {
    && (forall p {:trigger f(p)} | p in m :: f(p) in moved && moved[f(p)] == m[p])
    && (forall q {:trigger Reached(m, f, q)} | q in moved :: Reached(m, f, q))
  }

  ghost predicate Reached<V>(m: map<Path, V>, f: Path -> Path, q: Path) {
    exists p :: p in m && f(p) == q
  }

  ghost predicate Injective<V>(m: map<Path, V>, f: Path -> Path) {
    forall p, q | p in m && q in m && f(p) == f(q) :: p == q
  }

  /** Where a path of the image comes from. */
  lemma SourceOf<V>(m: map<Path, V>, moved: map<Path, V>, f: Path -> Path, q: Path) returns (p: Path)
    requires Image(m, moved, f) && q in moved
    ensures p in m && f(p) == q && m[p] == moved[q]
  {
    assert Reached(m, f, q);
    p :| p in m && f(p) == q;
  }

  lemma ImageOfImage<V>(a: map<Path, V>, b: map<Path, V>, c: map<Path, V>, f: Path -> Path, g: Path -> Path, h: Path -> Path)
    requires Image(a, b, f) && Image(b, c, g) && forall p | p in a :: h(p) == g(f(p))
    ensures Image(a, c, h)
  {
    forall r | r in c ensures Reached(a, h, r) {
      var q := SourceOf(b, c, g, r);
      var p := SourceOf(a, b, f, q);
      assert h(p) == r;
    }
  }

  /** Moving files without losing one moves no bytes. */
  lemma {:induction false} BytesOfImage(files: map<Path, nat>, moved: map<Path, nat>, f: Path -> Path)
    requires Image(files, moved, f) && Injective(files, f)
    ensures Bytes(moved) == Bytes(files)
    decreases files.Keys
  {
    if files == map[] {
      if q :| q in moved {
        var p := SourceOf(files, moved, f, q);
      }
    } else {
      var p :| p in files;
      assert f(p) in moved;
      BytesWithout(files, p);
      BytesWithout(moved, f(p));
      forall q | q in moved - {f(p)} ensures Reached(files - {p}, f, q) {
        var r := SourceOf(files, moved, f, q);
        assert r in files - {p};
      }
      BytesOfImage(files - {p}, moved - {f(p)}, f);
    }
  }

  /** Where a path goes when `from` is renamed. */
  function Renaming(from: Path, to: Path): Path -> Path {
    p => if from <= p then to + p[|from|..] else p
  }

  lemma RenamingIsInjective(from: Path, to: Path, p: Path, q: Path)
    requires !(to <= p) && !(to <= q) && Renaming(from, to)(p) == Renaming(from, to)(q)
    ensures p == q
  {
    if from <= p && from <= q {
      assert p == from + p[|from|..] && q == from + q[|from|..];
      assert p[|from|..] == (to + p[|from|..])[|to|..];
      assert q[|from|..] == (to + q[|from|..])[|to|..];
    }
  }

  lemma RenamingIsInjectiveOn<V>(m: map<Path, V>, from: Path, to: Path)
    requires forall p | p in m :: !(to <= p)
    ensures Injective(m, Renaming(from, to))
  {
    forall p, q | p in m && q in m && Renaming(from, to)(p) == Renaming(from, to)(q) ensures p == q {
      RenamingIsInjective(from, to, p, q);
    }
  }

  function Renamed<V>(m: map<Path, V>, from: Path, to: Path): map<Path, V>
    requires forall p | p in m :: !(to <= p)
  {
    RenamingIsInjectiveOn(m, from, to);
    map p | p in m :: Renaming(from, to)(p) := m[p]
  }

  lemma RenamedIsImage<V>(m: map<Path, V>, from: Path, to: Path)
    requires forall p | p in m :: !(to <= p)
    ensures Image(m, Renamed(m, from, to), Renaming(from, to))
  {
    var f, moved := Renaming(from, to), Renamed(m, from, to);
    RenamingIsInjectiveOn(m, from, to);
    forall p | p in m ensures f(p) in moved && moved[f(p)] == m[p] {
    }
    forall q | q in moved ensures Reached(m, f, q) {
      var p :| p in m && f(p) == q;
    }
  }

  /** Renaming to a new place in an existing directory keeps the tree a tree. */
  lemma RenamingKeepsTree(files: map<Path, nat>, dirs: map<Path, int>, from: Path, to: Path)
    requires IsTree(files, dirs) && from != [] && to != [] && !(from <= to)
    requires forall p | p in files || p in dirs :: !(to <= p)
    requires forall i | 0 < i < |to| :: to[..i] in dirs
    ensures IsTree(Renamed(files, from, to), Renamed(dirs, from, to))
  {
    var files', dirs', f := Renamed(files, from, to), Renamed(dirs, from, to), Renaming(from, to);
    forall q | q in files' ensures q !in dirs' && q != [] {
      var p :| p in files && f(p) == q;
      if r :| r in dirs && f(r) == q {
        RenamingIsInjective(from, to, p, r);
      }
    }
    forall q | q in dirs' ensures q != [] {
      var p :| p in dirs && f(p) == q;
    }
    forall q, i | (q in files' || q in dirs') && 0 < i < |q| ensures q[..i] in dirs' {
      var p :| (p in files || p in dirs) && f(p) == q;
      ParentIsRenamed(files, dirs, from, to, p, i);
    }
  }

  lemma RenamingOnTree(files: map<Path, nat>, dirs: map<Path, int>, from: Path, to: Path)
    requires IsTree(files, dirs) && from != [] && to != [] && !(from <= to)
    requires forall p | p in files || p in dirs :: !(to <= p)
    requires forall i | 0 < i < |to| :: to[..i] in dirs
    ensures IsTree(Renamed(files, from, to), Renamed(dirs, from, to))
    ensures Bytes(Renamed(files, from, to)) == Bytes(files)
  {
    RenamingKeepsTree(files, dirs, from, to);
    RenamingIsInjectiveOn(files, from, to);
    BytesOfImage(files, Renamed(files, from, to), Renaming(from, to));
  }

  lemma ParentIsRenamed(files: map<Path, nat>, dirs: map<Path, int>, from: Path, to: Path, p: Path, i: nat)
    requires IsTree(files, dirs) && from != [] && to != [] && !(from <= to)
    requires forall p | p in files || p in dirs :: !(to <= p)
    requires forall i | 0 < i < |to| :: to[..i] in dirs
    requires (p in files || p in dirs) && 0 < i < |Renaming(from, to)(p)|
    ensures Renaming(from, to)(p)[..i] in Renamed(dirs, from, to)
  {
    var f, q := Renaming(from, to), Renaming(from, to)(p);
    if from <= p && i >= |to| {
      var j := |from| + i - |to|;
      assert p[..j] in dirs && from <= p[..j];
      assert q[..i] == to + p[|from|..j] == f(p[..j]);
    } else if from <= p {
      assert q[..i] == to[..i];
      assert from <= to[..i] ==> from <= to;
      assert f(to[..i]) == to[..i];
    } else {
      assert from <= p[..i] ==> from <= p;
      assert f(p[..i]) == p[..i];
    }
  }

  /******* Which directories are cache entries *******/

  predicate HasSuffix(s: string, suffix: string) {
    |suffix| <= |s| && s[|s| - |suffix|..] == suffix
  }

  /** The directory contains something named metadata.json. */
  predicate HasMetadata(files: map<Path, nat>, dirs: map<Path, int>, d: Path) {
    d + [METADATA] in files || d + [METADATA] in dirs
  }

  /** The three kinds of entry, by position and name. `base` is the name of the root itself. */
  predicate Candidate(base: string, files: map<Path, nat>, dirs: map<Path, int>, d: Path) {
    && |d| > 0
    && var name := d[|d| - 1];
       var published := |d| == 3 && HasMetadata(files, dirs, d);
       var temporary := |d| == 2 && d[0] == ".tmp" && "snapshot-" <= name;
       var gitRoot := base == ".pull" || base == "pull";
       var gitEntry := HasSuffix(name, ".git") && ((|d| == 2 && d[0] == ".pull") || (|d| == 1 && gitRoot));
       published || temporary || gitEntry
  }

  /** What the walk reports: a candidate outside .locks with no candidate above it. */
  ghost predicate Listed(base: string, files: map<Path, nat>, dirs: map<Path, int>, d: Path) {
    && d in dirs && |d| > 0 && d[0] != ".locks"
    && Candidate(base, files, dirs, d)
    && forall i | 0 < i < |d| :: !Candidate(base, files, dirs, d[..i])
  }

  ghost function ListedSet(base: string, files: map<Path, nat>, dirs: map<Path, int>): set<Path> {
    set d | d in dirs && Listed(base, files, dirs, d)
  }

  /** The listing is prefix-free, so no byte belongs to two entries. */
  lemma ListingIsPrefixFree(base: string, files: map<Path, nat>, dirs: map<Path, int>)
    ensures PrefixFree(ListedSet(base, files, dirs))
  {
    forall d, e | d in ListedSet(base, files, dirs) && e in ListedSet(base, files, dirs) && d <= e
      ensures d == e
    {
      assert e[..|d|] == d;
    }
  }

  /** An entry by its name alone: a snapshot being extracted, or a Git repository.
      These are what a writer keeps while it fills them. */
  predicate NamedEntry(base: string, d: Path) {
    || (|d| == 2 && d[0] == ".tmp" && "snapshot-" <= d[1])
    || (|d| == 2 && d[0] == ".pull" && HasSuffix(d[1], ".git"))
    || (|d| == 1 && d[0] != ".locks" && HasSuffix(d[0], ".git") && (base == ".pull" || base == "pull"))
  }

  /** It is listed whatever is written below it or elsewhere. */
  lemma NamedEntryIsListed(base: string, files: map<Path, nat>, dirs: map<Path, int>, d: Path)
    requires NamedEntry(base, d) && d in dirs
    ensures Listed(base, files, dirs, d)
  {
    forall i | 0 < i < |d| ensures !Candidate(base, files, dirs, d[..i]) {
      assert d[..i] == [d[0]];
      assert !HasSuffix(".tmp", ".git") && !HasSuffix(".pull", ".git");
    }
  }

  /******* Names of owners and repositories *******/

  predicate IsCacheChar(c: char, first: bool) {
    || '0' <= c <= '9' || 'a' <= c <= 'z' || 'A' <= c <= 'Z'
    || ((c == '.' || c == '_' || c == '-') && !first)
  }

  predicate IsCacheComponent(value: string) {
    && value != "" && |value| <= 100 && value != "." && value != ".."
    && forall i | 0 <= i < |value| :: IsCacheChar(value[i], i == 0)
  }

  predicate IsFullCommitSha(value: string) {
    |value| == 40 && forall i | 0 <= i < 40 ::
      '0' <= value[i] <= '9' || 'a' <= value[i] <= 'f' || 'A' <= value[i] <= 'F'
  }

  /** A commit directory as the manager builds it, below a root named after a user number. */
  predicate IsCommitDir(d: Path) {
    |d| == 3 && IsCacheComponent(d[0]) && IsCacheComponent(d[1]) && IsFullCommitSha(d[2])
  }

  predicate IsNumeric(base: string) {
    base != "" && forall i | 0 <= i < |base| :: '0' <= base[i] <= '9'
  }

  /** Whatever the owner and the repository are called, a commit directory is
      listed exactly when it has metadata, and nothing above or below it ever is:
      names like snapshot-demo or project.git are not mistaken for entries. */
  lemma CommitDirListing(base: string, files: map<Path, nat>, dirs: map<Path, int>, d: Path, e: Path)
    requires IsNumeric(base) && IsCommitDir(d) && d in dirs
    ensures Listed(base, files, dirs, d) <==> HasMetadata(files, dirs, d)
    ensures e < d ==> !Listed(base, files, dirs, e)
    ensures d < e && HasMetadata(files, dirs, d) ==> !Listed(base, files, dirs, e)
  {
    assert IsCacheChar(d[0][0], true);
    assert d[0][0] != '.';
    assert base[0] != '.' && base[0] != 'p';
    forall i | 0 < i < 3 ensures !Candidate(base, files, dirs, d[..i]) {
      assert d[..i][0] == d[0];
    }
    if e < d && |e| > 0 {
      assert e == d[..|e|];
    }
    if d < e && HasMetadata(files, dirs, d) {
      assert e[..3] == d;
    }
  }
}
