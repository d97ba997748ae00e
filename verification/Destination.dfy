/**
 How changes of the disk look from a destination, a directory in the entry that
 its writer keeps: what lies below it, and what else the entry holds.
 */
module Destination {
  import opened DiskTree
  import opened DiskCache
  import opened Archive

  ghost function Whole(disk: Disk): Content
    reads disk
  {
    Content(disk.files, disk.dirs.Keys)
  }

  /** What an entry holds besides the destination and what is below that. */
  function Beside(c: Content, keep: Path, d: Path): Content {
    Content(map p | p in c.files && keep <= p && !(d <= p) :: c.files[p], set p | p in c.dirs && keep <= p && !(d <= p))
  }

  ghost predicate SameBelow(a: Content, b: Content, keep: Path) {
    && (forall p | keep <= p :: p in a.files <==> p in b.files)
    && (forall p | p in a.files && keep <= p :: p in b.files && a.files[p] == b.files[p])
    && (forall p | keep <= p :: p in a.dirs <==> p in b.dirs)
  }

  lemma SameAt(a: Content, b: Content, keep: Path, d: Path)
    requires SameBelow(a, b, keep) && keep <= d
    ensures At(a, d) == At(b, d) && Beside(a, keep, d) == Beside(b, keep, d)
  {
    forall q ensures
      && (q in At(a, d).files <==> q in At(b, d).files)
      && (q in At(a, d).files ==> At(a, d).files[q] == At(b, d).files[q])
      && (q in At(a, d).dirs <==> q in At(b, d).dirs)
    {
      AtHas(a, d, q);
      AtHas(b, d, q);
      assert keep <= d + q;
    }
  }

  /** The destination lies right below the kept entry, and that exists. */
  ghost predicate IsPlace(c: Content, keep: Path, d: Path) {
    && keep != [] && keep <= d && |d| == |keep| + 1
    && Prefixes(keep) <= c.dirs && c.files.Keys !! c.dirs
  }

  lemma TreeIsPlace(disk: Disk, keep: Path, d: Path)
    requires disk.Tree() && keep in disk.dirs && keep <= d && |d| == |keep| + 1
    ensures IsPlace(Whole(disk), keep, d)
  {
    forall q | q in Prefixes(keep) ensures q in disk.dirs {
      var i :| 0 < i <= |keep| && q == keep[..i];
      assert i == |keep| ==> keep[..i] == keep;
    }
  }

  /** The prefixes of a path below the destination: those of the kept entry, and those
      below the destination. */
  lemma PrefixesBelow(keep: Path, d: Path, t: Path, q: Path)
    requires keep <= d && |d| == |keep| + 1
    ensures q in Prefixes(d + t) <==> q in Prefixes(keep) || (d <= q && q[|d|..] in Above(t))
  {
    var all := d + t;
    if q in Prefixes(all) {
      var i :| 0 < i <= |all| && q == all[..i];
      if i <= |keep| {
        assert q == keep[..i];
      } else {
        assert all[..i] == d + t[..i - |d|];
        assert q[|d|..] == t[..i - |d|];
      }
    }
    if q in Prefixes(keep) {
      var i :| 0 < i <= |keep| && q == keep[..i];
      assert q == all[..i];
    }
    if d <= q && q[|d|..] in Above(t) {
      var i :| 0 <= i <= |t| && q[|d|..] == t[..i];
      var j := |d| + i;
      assert q == d + q[|d|..] == all[..j];
    }
  }

  lemma DirectoriesAdded(c: Content, keep: Path, d: Path, t: Path)
    requires IsPlace(c, keep, d)
    ensures c.files.Keys !! Prefixes(d + t) <==> At(c, d).files.Keys !! Above(t)
    ensures var more := c.(dirs := c.dirs + Prefixes(d + t));
      && At(more, d) == At(c, d).(dirs := At(c, d).dirs + Above(t))
      && Beside(more, keep, d) == Beside(c, keep, d)
  {
    DirectoriesBlocked(c, keep, d, t);
    DirectoriesAt(c, keep, d, t);
    DirectoriesBeside(c, keep, d, t);
  }

  lemma DirectoriesBlocked(c: Content, keep: Path, d: Path, t: Path)
    requires IsPlace(c, keep, d)
    ensures c.files.Keys !! Prefixes(d + t) <==> At(c, d).files.Keys !! Above(t)
  {
    if p :| p in c.files && p in Prefixes(d + t) {
      PrefixesBelow(keep, d, t, p);
      AtHas(c, d, p[|d|..]);
      assert p == d + p[|d|..];
    }
    if q :| q in At(c, d).files && q in Above(t) {
      AtHas(c, d, q);
      PrefixesBelow(keep, d, t, d + q);
      assert (d + q)[|d|..] == q;
    }
  }

  lemma DirectoriesAt(c: Content, keep: Path, d: Path, t: Path)
    requires IsPlace(c, keep, d)
    ensures At(c.(dirs := c.dirs + Prefixes(d + t)), d) == At(c, d).(dirs := At(c, d).dirs + Above(t))
  {
    var more := c.(dirs := c.dirs + Prefixes(d + t));
    var x, y := At(more, d), At(c, d);
    forall q: Path ensures q in x.dirs <==> q in y.dirs || q in Above(t) {
      AtHas(more, d, q);
      AtHas(c, d, q);
      PrefixesBelow(keep, d, t, d + q);
      assert (d + q)[|d|..] == q;
      NotAPrefix(keep, d + q);
    }
    assert x.files == y.files;
    assert x.dirs == y.dirs + Above(t);
  }

  lemma DirectoriesBeside(c: Content, keep: Path, d: Path, t: Path)
    requires IsPlace(c, keep, d)
    ensures Beside(c.(dirs := c.dirs + Prefixes(d + t)), keep, d) == Beside(c, keep, d)
  {
    var more := c.(dirs := c.dirs + Prefixes(d + t));
    forall p | !(d <= p) ensures p in more.dirs <==> p in c.dirs {
      PrefixesBelow(keep, d, t, p);
    }
  }

  lemma NotAPrefix(keep: Path, p: Path)
    requires |p| > |keep|
    ensures p !in Prefixes(keep)
  {
  }

  lemma FileAdded(c: Content, keep: Path, d: Path, t: Path, size: nat)
    requires IsPlace(c, keep, d)
    ensures d + t in c.dirs <==> t in At(c, d).dirs
    ensures var more := c.(files := c.files[d + t := size]);
      && At(more, d) == At(c, d).(files := At(c, d).files[t := size])
      && Beside(more, keep, d) == Beside(c, keep, d)
  {
    AtHas(c, d, t);
    FileAddedAt(c, d, t, size);
    FileAddedBeside(c, keep, d, t, size);
  }

  lemma FileAddedBeside(c: Content, keep: Path, d: Path, t: Path, size: nat)
    ensures Beside(c.(files := c.files[d + t := size]), keep, d) == Beside(c, keep, d)
  {
  }

  lemma FileAddedAt(c: Content, d: Path, t: Path, size: nat)
    ensures At(c.(files := c.files[d + t := size]), d) == At(c, d).(files := At(c, d).files[t := size])
  {
    var more := c.(files := c.files[d + t := size]);
    var x, y := At(more, d), At(c, d);
    forall q: Path ensures
      && (q in x.files <==> q in y.files || q == t)
      && (q in x.files ==> x.files[q] == if q == t then size else y.files[q])
    {
      AtHas(more, d, q);
      AtHas(c, d, q);
      OneTail(d, q, t);
    }
    assert x.dirs == y.dirs;
    assert x.files == y.files[t := size];
  }

  lemma OneTail(d: Path, q: Path, t: Path)
    ensures d + q == d + t <==> q == t
  {
    assert (d + q)[|d|..] == q && (d + t)[|d|..] == t;
  }

  /** Something beside the destination, in the entry itself. */
  lemma BesideAdded(c: Content, keep: Path, d: Path, p: Path, size: nat)
    requires keep <= p && !(d <= p)
    ensures var more := c.(files := c.files[p := size]);
      && At(more, d) == At(c, d)
      && Beside(more, keep, d) == Beside(c, keep, d).(files := Beside(c, keep, d).files[p := size])
  {
    var more := c.(files := c.files[p := size]);
    assert At(more, d).files == At(c, d).files;
  }

  /** A directory that has just been made. */
  lemma FreshPlace(c: Content, keep: Path, d: Path)
    requires keep in c.dirs && keep < d
    requires forall p | p in c.files || p in c.dirs :: keep <= p ==> p == keep
    requires c.files.Keys !! c.dirs
    ensures At(c, d) == EMPTY && Beside(c, keep, d) == Content(map[], {keep})
  {
    assert forall p | d <= p :: p !in c.files && p !in c.dirs;
    assert At(c, d).files == map[] && At(c, d).dirs == {};
    assert Beside(c, keep, d).files == map[] && Beside(c, keep, d).dirs == {keep};
  }

  lemma EmptyPlace(c: Content, d: Path)
    requires forall p | p in c.files || p in c.dirs :: !(d <= p)
    ensures At(c, d) == EMPTY
  {
    assert At(c, d).files == map[] && At(c, d).dirs == {};
  }
}
