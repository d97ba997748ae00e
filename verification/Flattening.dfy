/**
 Removing the directory that wraps an archive, on the disk: its entries move up
 one by one, and the empty wrapper goes.
 */
module Flattening {
  import opened Wrappers
  import opened DiskTree
  import opened Quota
  import opened DiskCache
  import opened Archive
  import opened Destination

  /** Where a path is once the entries `done` of the wrapper have moved up. */
  function Lifting(d: Path, w: string, done: set<string>): Path -> Path {
    p => if d + [w] < p && p[|d| + 1] in done then d + p[|d| + 1..] else p
  }

  /** One entry more, when nothing but the wrapper lies in the destination. */
  lemma LiftOne(d: Path, w: string, done: set<string>, n: string, p: Path)
    requires n != w && w !in done && n !in done
    requires d < p ==> d + [w] <= p
    ensures Renaming(d + [w, n], d + [n])(Lifting(d, w, done)(p)) == Lifting(d, w, done + {n})(p)
  {
    var q := Lifting(d, w, done)(p);
    if d + [w] < p {
      var m := p[|d| + 1];
      assert p == d + [w, m] + p[|d| + 2..];
      assert p[|d| + 1..] == [m] + p[|d| + 2..];
      assert d + [w, n] <= p <==> m == n;
      assert m in done ==> q == d + ([m] + p[|d| + 2..]) && q[|d|] == m;
      assert m in done ==> !(d + [w, n] <= q);
      assert m == n ==> q[|d + [w, n]|..] == p[|d| + 2..];
      assert m == n ==> d + [n] + p[|d| + 2..] == d + p[|d| + 1..];
    } else {
      assert !(d + [w, n] <= p);
    }
  }

  /** Only the wrapper lies in the destination, and only these names in the wrapper. */
  ghost predicate Holds<V>(m: map<Path, V>, d: Path, w: string, names: set<string>) {
    && (forall p | p in m && d < p :: d + [w] <= p)
    && (forall p | p in m && d + [w] < p :: p[|d| + 1] in names)
  }

  lemma LiftOneMore<V>(m: map<Path, V>, b: map<Path, V>, c: map<Path, V>, d: Path, w: string, names: set<string>,
      done: set<string>, n: string)
    requires Holds(m, d, w, names) && n != w && w !in done && n !in done
    requires Image(m, b, Lifting(d, w, done)) && Image(b, c, Renaming(d + [w, n], d + [n]))
    ensures Image(m, c, Lifting(d, w, done + {n}))
  {
    forall p | p in m
      ensures Lifting(d, w, done + {n})(p) == Renaming(d + [w, n], d + [n])(Lifting(d, w, done)(p))
    {
      LiftOne(d, w, done, n, p);
    }
    ImageOfImage(m, b, c, Lifting(d, w, done), Renaming(d + [w, n], d + [n]), Lifting(d, w, done + {n}));
  }

  /** While entries move up, the place of the next one is free unless it has the
      name of the wrapper. */
  lemma NoOther<V>(m: map<Path, V>, b: map<Path, V>, d: Path, w: string, names: set<string>, done: set<string>, n: string)
    requires Holds(m, d, w, names) && n !in done && Image(m, b, Lifting(d, w, done))
    ensures d + [n] in b ==> n == w
    ensures d + [w, n] in m ==> d + [w, n] in b
    ensures d in m ==> d in b
    ensures d + [w] in m ==> d + [w] in b
  {
    var f := Lifting(d, w, done);
    assert (d + [w, n])[|d| + 1] == n;
    assert f(d + [w, n]) == d + [w, n] && f(d) == d && f(d + [w]) == d + [w];
    if d + [n] in b {
      var p := SourceOf(m, b, f, d + [n]);
      WhereFrom(d, w, done, p, [n]);
      assert (d + [n])[|d|] == n && (d + [w])[|d|] == w;
    }
  }

  lemma WhereFrom(d: Path, w: string, done: set<string>, p: Path, q: Path)
    requires Lifting(d, w, done)(p) == d + q
    ensures p == d + q || (p == d + [w] + q && q != [] && q[0] in done)
  {
    if d + [w] < p && p[|d| + 1] in done {
      Shorter(d, p[|d| + 1..], q);
      assert p == d + [w] + p[|d| + 1..];
    }
  }

  lemma WhereTo(d: Path, w: string, done: set<string>, q: Path)
    requires q != [] && q[0] in done
    ensures Lifting(d, w, done)(d + [w] + q) == d + q
  {
    assert (d + [w] + q)[|d| + 1] == q[0] && (d + [w] + q)[|d| + 1..] == q;
  }

  lemma Shorter(d: Path, a: Path, b: Path)
    ensures d + a == d + b <==> a == b
  {
    assert (d + a)[|d|..] == a && (d + b)[|d|..] == b;
  }

  /** Once all have moved up, each path below the wrapper is a path below the destination. */
  lemma AllLifted<V>(m: map<Path, V>, b: map<Path, V>, d: Path, w: string, names: set<string>, q: Path)
    requires Holds(m, d, w, names) && w !in names && Image(m, b, Lifting(d, w, names))
    ensures q != [] && q != [w] ==> (d + q in b <==> d + [w] + q in m)
    ensures q != [] && q != [w] && d + q in b ==> b[d + q] == m[d + [w] + q]
    ensures d + [w] + [w] !in m
  {
    var f := Lifting(d, w, names);
    assert (d + [w] + q)[|d| + 1..] == q && (d + [w] + [w])[|d| + 1] == w;
    if d + q in b {
      var p := SourceOf(m, b, f, d + q);
      WhereFrom(d, w, names, p, q);
      if q != [] && q != [w] && p == d + q {
        OnlyLifted(m, d, w, names, q);
      }
    }
    if q != [] && d + [w] + q in m {
      assert d + [w] < d + [w] + q && (d + [w] + q)[|d| + 1] == q[0];
      WhereTo(d, w, names, q);
      assert f(d + [w] + q) in b;
    }
  }

  lemma WrapperStays<V>(m: map<Path, V>, b: map<Path, V>, d: Path, w: string, names: set<string>)
    requires w !in names && Image(m, b, Lifting(d, w, names))
    ensures d in b <==> d in m
    ensures d + [w] in b <==> d + [w] in m
  {
    var f := Lifting(d, w, names);
    assert f(d) == d && f(d + [w]) == d + [w] && d + [] == d;
    if d in b {
      var p := SourceOf(m, b, f, d);
      WhereFrom(d, w, names, p, []);
    }
    if d + [w] in b {
      var p := SourceOf(m, b, f, d + [w]);
      WhereFrom(d, w, names, p, [w]);
    }
  }

  lemma OnlyLifted<V>(m: map<Path, V>, d: Path, w: string, names: set<string>, q: Path)
    requires Holds(m, d, w, names) && q != [] && q != [w] && d + q in m
    ensures Lifting(d, w, names)(d + q) != d + q
  {
    assert d < d + q && (d + q)[|d|] == q[0] && (d + [w])[|d|] == w;
    assert d + [w] < d + q;
  }

  lemma NotLifted<V>(m: map<Path, V>, b: map<Path, V>, d: Path, w: string, names: set<string>, p: Path)
    requires Image(m, b, Lifting(d, w, names)) && !(d <= p)
    ensures p in b <==> p in m
    ensures p in m ==> b[p] == m[p]
  {
    var f := Lifting(d, w, names);
    assert f(p) == p;
    if p in b {
      var r := SourceOf(m, b, f, p);
      assert d + [w] < r && r[|d| + 1] in names ==> d <= f(r);
    }
  }

  /******* On the disk *******/

  ghost predicate SameOutside(a: Content, b: Content, d: Path) {
    && (forall p | !(d <= p) :: p in a.files <==> p in b.files)
    && (forall p | p in a.files && !(d <= p) :: p in b.files && a.files[p] == b.files[p])
    && (forall p | !(d <= p) :: p in a.dirs <==> p in b.dirs)
  }

  lemma SameBeside(a: Content, b: Content, keep: Path, d: Path)
    requires SameOutside(a, b, d)
    ensures Beside(a, keep, d) == Beside(b, keep, d)
  {
  }

  method FlattenArchivePrefix(disk: Disk, d: Path) returns (error: Option<ArchiveError>)
    requires disk.Tree() && d != []
    modifies disk
    ensures disk.Tree() && disk.Used() == old(disk.Used())
    ensures error.None? ==> Flattened(At(old(Whole(disk)), d)) == Ok(At(Whole(disk), d))
    ensures error.Some? ==> Flattened(At(old(Whole(disk)), d)) == Err(error.value)
    ensures SameOutside(old(Whole(disk)), Whole(disk), d)
    ensures Extends(old(disk.history), disk.history, 0)
  {
    ghost var c := Whole(disk);
    ExtendsItself(disk.history, 0);
    AtHas(c, d, []);
    assert d + [] == d;
    if d !in disk.dirs {
      return Some(NoRoot);
    }
    var names := disk.Names(d);
    NamesAreTop(disk, d);
    if |names| != 1 {
      NotSingle(At(c, d));
      return None;
    }
    var w :| w in names;
    OnlyElement(names, w);
    AtHas(c, d, [w]);
    if d + [w] !in disk.dirs {
      NotDirectory(At(c, d), w);
      return None;
    }
    AtAt(c, d, w);
    FlattenedSingle(At(c, d), w);
    NamesAreTop(disk, d + [w]);
    error := MoveUp(disk, d, w);
  }

  lemma OnlyElement(names: set<string>, w: string)
    requires |names| == 1 && w in names
    ensures names == {w}
  {
    assert |names - {w}| == 0;
    assert names == (names - {w}) + {w};
  }

  lemma NamesAreTop(disk: Disk, d: Path)
    ensures disk.Names(d) == Top(At(Whole(disk), d))
  {
    disk.NamesArePresent(d);
    TopIsFirst(At(Whole(disk), d));
    forall n: string ensures n in disk.Names(d) <==> n in Top(At(Whole(disk), d)) {
      AtHas(Whole(disk), d, [n]);
    }
  }

  lemma AtAt(c: Content, d: Path, w: string)
    ensures At(At(c, d), [w]) == At(c, d + [w])
  {
    var e := At(c, d);
    forall q: Path ensures SameIn(At(e, [w]), At(c, d + [w]), q) {
      AtHas(e, [w], q);
      AtHas(c, d, [w] + q);
      AtHas(c, d + [w], q);
      MirrorsTwice(c, d, e, w, At(e, [w]), At(c, d + [w]), q);
    }
    Extensional(At(e, [w]), At(c, d + [w]));
  }

  lemma MirrorsTwice(c: Content, d: Path, e: Content, w: string, x: Content, y: Content, q: Path)
    requires Mirrors(c, d, e, [w] + q) && Mirrors(e, [w], x, q) && Mirrors(c, d + [w], y, q)
    ensures SameIn(x, y, q)
  {
    assert d + [w] + q == d + ([w] + q);
  }

  ghost predicate SameIn(x: Content, y: Content, q: Path) {
    && (q in x.files <==> q in y.files)
    && (q in x.files ==> x.files[q] == y.files[q])
    && (q in x.dirs <==> q in y.dirs)
  }

  lemma Extensional(x: Content, y: Content)
    requires forall q :: SameIn(x, y, q)
    ensures x == y
  {
    assert forall q :: q in x.files ==> SameIn(x, y, q);
    assert forall q :: q in y.files ==> SameIn(x, y, q);
    assert x.files == y.files;
    assert forall q :: q in x.dirs ==> SameIn(x, y, q);
    assert forall q :: q in y.dirs ==> SameIn(x, y, q);
    assert x.dirs == y.dirs;
  }

  /** The condition of the loop: what the wrapper holds, and that nothing lies beside it. */
  ghost predicate Ready(disk: Disk, d: Path, w: string)
    reads disk
  {
    && disk.Tree() && d != [] && d in disk.dirs && d + [w] in disk.dirs && disk.Names(d) == {w}
  }

  lemma WhatIsThere(disk: Disk, d: Path, w: string)
    requires Ready(disk, d, w)
    ensures Holds(disk.files, d, w, disk.Names(d + [w])) && Holds(disk.dirs, d, w, disk.Names(d + [w]))
  {
    disk.NamesArePresent(d);
    disk.NamesArePresent(d + [w]);
    forall p | (p in disk.files || p in disk.dirs) && d < p ensures d + [w] <= p {
      CutIsPresent(disk, d, p);
      assert p[|d|] in disk.Names(d);
    }
    forall p | (p in disk.files || p in disk.dirs) && d + [w] < p ensures p[|d| + 1] in disk.Names(d + [w]) {
      CutIsPresent(disk, d + [w], p);
    }
  }

  lemma CutIsPresent(disk: Disk, d: Path, p: Path)
    requires disk.Tree() && disk.Present(p) && d < p
    ensures disk.Present(d + [p[|d|]]) && d + [p[|d|]] <= p
  {
    var cut := p[..|d| + 1];
    assert cut == d + [p[|d|]];
    assert |cut| == |p| ==> cut == p;
  }

  /** The disk as it was at first, for the loop. */
  datatype Job = Job(files: map<Path, nat>, dirs: map<Path, int>, history: seq<map<Path, nat>>, d: Path, w: string,
    names: set<string>)

  /** The loop in the middle: the names done have moved up, and nothing else has moved. */
  ghost predicate Moving(j: Job, done: set<string>, disk: Disk)
    reads disk
  {
    match j
    case Job(files, dirs, history, d, w, names) =>
      && disk.Tree() && disk.Used() == Bytes(files) && Extends(history, disk.history, 0)
      && Holds(files, d, w, names) && Holds(dirs, d, w, names)
      && d != [] && d in dirs && d + [w] in dirs && d !in files && d + [w] !in files
      && (forall n | n in names :: d + [w, n] in files || d + [w, n] in dirs)
      && done <= names && w !in done
      && Image(files, disk.files, Lifting(d, w, done)) && Image(dirs, disk.dirs, Lifting(d, w, done))
  }

  lemma Begins(j: Job, disk: Disk)
    requires Ready(disk, j.d, j.w)
    requires j == JobOf(disk, j.d, j.w)
    ensures Moving(j, {}, disk)
  {
    WhatIsThere(disk, j.d, j.w);
    ExtendsItself(disk.history, 0);
    NotMoved(disk.files, j.d, j.w);
    NotMoved(disk.dirs, j.d, j.w);
    NamesInWrapper(disk, j.d, j.w);
  }

  lemma NotMoved<V>(m: map<Path, V>, d: Path, w: string)
    ensures Image(m, m, Lifting(d, w, {}))
  {
    forall q | q in m ensures Reached(m, Lifting(d, w, {}), q) {
      assert Lifting(d, w, {})(q) == q;
    }
  }

  lemma NamesInWrapper(disk: Disk, d: Path, w: string)
    ensures forall n | n in disk.Names(d + [w]) :: d + [w, n] in disk.files || d + [w, n] in disk.dirs
  {
    disk.NamesArePresent(d + [w]);
    forall n | n in disk.Names(d + [w]) ensures disk.Present(d + [w, n]) {
      assert d + [w, n] == d + [w] + [n];
    }
  }

  ghost function JobOf(disk: Disk, d: Path, w: string): Job
    reads disk
  {
    Job(disk.files, disk.dirs, disk.history, d, w, disk.Names(d + [w]))
  }

  /** What the removal of the wrapper achieves, or leaves behind when it fails. */
  ghost predicate Ended(j: Job, error: Option<ArchiveError>, disk: Disk)
    reads disk
  {
    && disk.Tree() && disk.Used() == Bytes(j.files) && Extends(j.history, disk.history, 0)
    && SameOutside(Content(j.files, j.dirs.Keys), Whole(disk), j.d)
    && match error
       case Some(e) => e == Clash && j.w in j.names
       case None => j.w !in j.names && At(Whole(disk), j.d) == At(Content(j.files, j.dirs.Keys), j.d + [j.w])
  }

  method MoveUp(disk: Disk, d: Path, w: string) returns (error: Option<ArchiveError>)
    requires Ready(disk, d, w)
    modifies disk
    ensures Ended(old(JobOf(disk, d, w)), error, disk)
  {
    ghost var j := JobOf(disk, d, w);
    Begins(j, disk);
    var nested := disk.Names(d + [w]);
    var todo := nested;
    assert nested - todo == {};
    while todo != {}
      invariant todo <= nested && Moving(j, nested - todo, disk)
      decreases todo
    {
      var n :| n in todo;
      var moved := MoveOne(disk, d, w, n, j, nested - todo);
      if !moved {
        Settled(j, nested - todo, disk);
        return Some(Clash);
      }
      assert nested - todo + {n} == nested - (todo - {n});
      todo := todo - {n};
    }
    assert nested - todo == nested;
    RemoveWrapper(disk, d, w, j);
    error := None;
  }

  method RemoveWrapper(disk: Disk, d: Path, w: string, ghost j: Job)
    requires Moving(j, j.names, disk) && j.d == d && j.w == w
    modifies disk
    ensures Ended(j, None, disk)
  {
    Settled(j, j.names, disk);
    Emptied(j, disk);
    disk.RemoveDirectory(d + [w]);
  }

  lemma Settled(j: Job, done: set<string>, disk: Disk)
    requires Moving(j, done, disk)
    ensures disk.Tree() && disk.Used() == Bytes(j.files) && Extends(j.history, disk.history, 0)
    ensures SameOutside(Content(j.files, j.dirs.Keys), Whole(disk), j.d)
    ensures SameOutside(Content(j.files, j.dirs.Keys), Content(disk.files, disk.dirs.Keys - {j.d + [j.w]}), j.d)
    ensures done == j.names ==> j.w !in j.names
    ensures j.w in j.names ==> Ended(j, Some(Clash), disk)
  {
    OutsideStays(j.files, j.dirs, disk.files, disk.dirs, j.d, j.w, done);
  }

  lemma Emptied(j: Job, disk: Disk)
    requires Moving(j, j.names, disk)
    ensures j.d + [j.w] in disk.dirs && forall p | disk.Present(p) && j.d + [j.w] <= p :: p == j.d + [j.w]
    ensures At(Content(disk.files, disk.dirs.Keys - {j.d + [j.w]}), j.d) == At(Content(j.files, j.dirs.Keys), j.d + [j.w])
  {
    WrapperStays(j.dirs, disk.dirs, j.d, j.w, j.names);
    NothingLeft(j.files, disk.files, j.d, j.w, j.names);
    NothingLeft(j.dirs, disk.dirs, j.d, j.w, j.names);
    Arrived(j.files, j.dirs, disk.files, disk.dirs, j.d, j.w, j.names);
  }

  lemma OutsideStays(files: map<Path, nat>, dirs: map<Path, int>, files1: map<Path, nat>, dirs1: map<Path, int>,
      d: Path, w: string, done: set<string>)
    requires Image(files, files1, Lifting(d, w, done)) && Image(dirs, dirs1, Lifting(d, w, done))
    ensures SameOutside(Content(files, dirs.Keys), Content(files1, dirs1.Keys), d)
    ensures SameOutside(Content(files, dirs.Keys), Content(files1, dirs1.Keys - {d + [w]}), d)
  {
    forall p: Path | !(d <= p) ensures
      && (p in files <==> p in files1)
      && (p in files ==> files[p] == files1[p])
      && (p in dirs <==> p in dirs1)
    {
      NotLifted(files, files1, d, w, done, p);
      NotLifted(dirs, dirs1, d, w, done, p);
    }
  }

  /** The wrapper is empty. */
  lemma NothingLeft<V>(m: map<Path, V>, b: map<Path, V>, d: Path, w: string, names: set<string>)
    requires Holds(m, d, w, names) && w !in names && Image(m, b, Lifting(d, w, names))
    ensures forall p | p in b && d + [w] <= p :: p == d + [w]
  {
    forall p | p in b && d + [w] <= p ensures p == d + [w] {
      var q := p[|d|..];
      assert p == d + q;
      assert [w] <= q;
      if q != [w] {
        WrapperIsGone(m, b, d, w, names, q);
      }
    }
  }

  lemma WrapperIsGone<V>(m: map<Path, V>, b: map<Path, V>, d: Path, w: string, names: set<string>, q: Path)
    requires Holds(m, d, w, names) && w !in names && Image(m, b, Lifting(d, w, names))
    requires q != [] && q != [w] && q[0] == w
    ensures d + q !in b
  {
    AllLifted(m, b, d, w, names, q);
    assert (d + [w] + q)[|d| + 1] == w && d + [w] < d + [w] + q;
  }

  /** In the end the destination holds what the wrapper held. */
  lemma Arrived(files: map<Path, nat>, dirs: map<Path, int>, files1: map<Path, nat>, dirs1: map<Path, int>,
      d: Path, w: string, names: set<string>)
    requires Holds(files, d, w, names) && Holds(dirs, d, w, names) && w !in names
    requires Image(files, files1, Lifting(d, w, names)) && Image(dirs, dirs1, Lifting(d, w, names))
    requires d in dirs && d + [w] in dirs && d !in files && d + [w] !in files
    ensures At(Content(files1, dirs1.Keys - {d + [w]}), d) == At(Content(files, dirs.Keys), d + [w])
  {
    var now, c := Content(files1, dirs1.Keys - {d + [w]}), Content(files, dirs.Keys);
    forall q: Path ensures SameIn(At(now, d), At(c, d + [w]), q) {
      AtHas(now, d, q);
      AtHas(c, d + [w], q);
      AllLifted(files, files1, d, w, names, q);
      AllLifted(dirs, dirs1, d, w, names, q);
      WrapperStays(files, files1, d, w, names);
      WrapperStays(dirs, dirs1, d, w, names);
      ArrivedAt(c, now, dirs1.Keys, d, w, q, At(now, d), At(c, d + [w]));
    }
    Extensional(At(now, d), At(c, d + [w]));
  }

  lemma ArrivedAt(c: Content, now: Content, dirs: set<Path>, d: Path, w: string, q: Path, x: Content, y: Content)
    requires now.dirs == dirs - {d + [w]} && Mirrors(now, d, x, q) && Mirrors(c, d + [w], y, q)
    requires q != [] && q != [w] ==>
      && (d + q in now.files <==> d + [w] + q in c.files)
      && (d + q in now.files ==> now.files[d + q] == c.files[d + [w] + q])
      && (d + q in dirs <==> d + [w] + q in c.dirs)
    requires d + [w] + [w] !in c.files && d + [w] + [w] !in c.dirs
    requires d in dirs && d + [w] in c.dirs
    requires d !in now.files && d + [w] !in now.files && d + [w] !in c.files
    ensures SameIn(x, y, q)
  {
    assert d + [] == d && d + [w] + [] == d + [w];
    Shorter(d, q, [w]);
  }

  /** The body of the loop for one name. */
  method MoveOne(disk: Disk, d: Path, w: string, n: string, ghost j: Job, ghost done: set<string>) returns (moved: bool)
    requires Moving(j, done, disk) && j.d == d && j.w == w && n in j.names && n !in done
    modifies disk
    ensures moved <==> n != w
    ensures Moving(j, if moved then done + {n} else done, disk)
  {
    var from, to := d + [w, n], d + [n];
    ghost var files, dirs, history := disk.files, disk.dirs, disk.history;
    NoOther(j.files, files, d, w, j.names, done, n);
    NoOther(j.dirs, dirs, d, w, j.names, done, n);
    if disk.Present(to) {
      return false;
    }
    ParentsOf(disk, d, n);
    disk.Rename(from, to);
    LiftOneMore(j.files, files, disk.files, d, w, j.names, done, n);
    LiftOneMore(j.dirs, dirs, disk.dirs, d, w, j.names, done, n);
    ExtendsOn(j.history, history, disk.history, 0);
    moved := true;
  }

  lemma ParentsOf(disk: Disk, d: Path, n: string)
    requires disk.Tree() && d in disk.dirs
    ensures forall i | 0 < i < |d + [n]| :: (d + [n])[..i] in disk.dirs
  {
    var to := d + [n];
    forall i | 0 < i < |to| ensures to[..i] in disk.dirs {
      assert to[..i] == d[..i] && (i == |d| ==> d[..i] == d);
    }
  }
}
