/**
 What an archive amounts to: the files and directories its entries make, the
 removal of the directory that wraps them, and the reader that stops an archive
 from growing without bound.
 */
module Archive {
  import opened Wrappers
  import opened DiskTree
  import opened SafeNames
  import opened Integers

  datatype Kind = Directory | Regular | Other

  /** An archive header; `got` is how much of the file the archive delivers. */
  datatype Header = Header(kind: Kind, name: string, size: nat, got: nat)

  datatype Stats = Stats(skipped: nat, fileCount: nat, totalBytes: nat)

  datatype ArchiveError = TooManyEntries | UnsafeEntry | Capacity | InTheWay | Incomplete | NoRoot | Clash

  /** What lies at or below a destination. Paths are relative to it; it is itself []. */
  datatype Content = Content(files: map<Path, nat>, dirs: set<Path>)

  const EMPTY := Content(map[], {})

  /** The path and the directories it lies in, up to the destination. */
  function Above(p: Path): set<Path> {
    set i | 0 <= i <= |p| :: p[..i]
  }

  function Parent(p: Path): Path
    requires p != []
  {
    p[..|p| - 1]
  }

  /** What lies at or below a path, relative to it. */
  function At(c: Content, d: Path): Content {
    assert forall p: Path | d <= p :: p == d + p[|d|..];
    Content(map p | p in c.files && d <= p :: p[|d|..] := c.files[p], set p | p in c.dirs && d <= p :: p[|d|..])
  }

  /** The second content has at one path what the first has at that path below d. */
  ghost predicate Mirrors(c: Content, d: Path, x: Content, q: Path) {
    && (q in x.files <==> d + q in c.files)
    && (q in x.files ==> x.files[q] == c.files[d + q])
    && (q in x.dirs <==> d + q in c.dirs)
  }

  lemma AtHas(c: Content, d: Path, q: Path)
    ensures Mirrors(c, d, At(c, d), q)
  {
    assert (d + q)[|d|..] == q;
    assert forall p: Path | d <= p && p[|d|..] == q :: p == d + q;
  }

  /******* Entry by entry *******/

  function AddDirectory(c: Content, d: Path): Result<Content, ArchiveError> {
    if c.files.Keys !! Above(d) then Ok(c.(dirs := c.dirs + Above(d))) else Err(InTheWay)
  }

  function AddFile(c: Content, p: Path, h: Header): Result<Content, ArchiveError>
    requires p != []
  {
    if p in c.dirs || !(c.files.Keys !! Above(Parent(p))) then Err(InTheWay)
    else if h.got < h.size then Err(Incomplete)
    else Ok(Content(c.files[p := h.size], c.dirs + Above(Parent(p))))
  }

  /** One entry: a file replaces an earlier one of the same name. */
  function AddEntry(c: Content, h: Header): Result<Content, ArchiveError> {
    if h.kind == Other then Ok(c)
    else if SafeName(h.name) == None then Err(UnsafeEntry)
    else if h.kind == Directory then AddDirectory(c, SafeName(h.name).value)
    else AddFile(c, SafeName(h.name).value, h)
  }

  /** The entries in turn, of which there may be `room`. */
  function Unpack(c: Content, hs: seq<Header>, room: int): Result<Content, ArchiveError>
    decreases hs
  {
    if hs == [] then Ok(c)
    else if room <= 0 then Err(TooManyEntries)
    else
      var next := AddEntry(c, hs[0]);
      if next.Ok? then Unpack(next.value, hs[1..], room - 1) else next
  }

  function AddStats(s: Stats, h: Header): Stats {
    if h.kind == Other then s.(skipped := s.skipped + 1)
    else if h.kind == Regular then s.(fileCount := s.fileCount + 1, totalBytes := s.totalBytes + h.size)
    else s
  }

  function StatsFrom(s: Stats, hs: seq<Header>): Stats
    decreases hs
  {
    if hs == [] then s else StatsFrom(AddStats(s, hs[0]), hs[1..])
  }

  function Cost(h: Header): nat {
    if h.kind == Regular then h.size else 0
  }

  /** The sum of the sizes of all files of an archive. */
  function Volume(hs: seq<Header>): nat {
    if hs == [] then 0 else Cost(hs[0]) + Volume(hs[1..])
  }

  lemma {:induction false} StatsCount(s: Stats, hs: seq<Header>)
    ensures StatsFrom(s, hs).totalBytes == s.totalBytes + Volume(hs)
    decreases hs
  {
    if hs != [] {
      StatsCount(AddStats(s, hs[0]), hs[1..]);
    }
  }

  /******* All entries together *******/

  /** An entry that would be materialized has a safe name, and a file is delivered whole. */
  predicate SaneEntry(h: Header) {
    h.kind != Other ==> SafeName(h.name).Some? && (h.kind == Regular ==> h.got >= h.size)
  }

  predicate Sane(hs: seq<Header>) {
    forall h | h in hs :: SaneEntry(h)
  }

  lemma SaneOneMore(hs: seq<Header>)
    requires hs != []
    ensures Sane(hs) <==> SaneEntry(hs[0]) && Sane(hs[1..])
  {
    assert hs == [hs[0]] + hs[1..];
  }

  function EntryFiles(h: Header): map<Path, nat> {
    if h.kind == Regular && SafeName(h.name).Some? then map[SafeName(h.name).value := h.size] else map[]
  }

  function EntryDirs(h: Header): set<Path> {
    if h.kind == Other || SafeName(h.name) == None then {}
    else if h.kind == Directory then Above(SafeName(h.name).value)
    else Above(Parent(SafeName(h.name).value))
  }

  /** The files of an archive, the last of each name, and the directories it needs. */
  function FilesOf(hs: seq<Header>): map<Path, nat> {
    if hs == [] then map[] else EntryFiles(hs[0]) + FilesOf(hs[1..])
  }

  function DirsOf(hs: seq<Header>): set<Path> {
    if hs == [] then {} else EntryDirs(hs[0]) + DirsOf(hs[1..])
  }

  lemma AddIsExact(c: Content, h: Header)
    requires c.files.Keys !! c.dirs
    ensures AddEntry(c, h).Ok? <==> SaneEntry(h) && (c.files + EntryFiles(h)).Keys !! c.dirs + EntryDirs(h)
    ensures AddEntry(c, h).Ok? ==> AddEntry(c, h).value == Content(c.files + EntryFiles(h), c.dirs + EntryDirs(h))
  {
    if h.kind == Regular && SafeName(h.name).Some? {
      var p := SafeName(h.name).value;
      assert p !in Above(Parent(p));
      assert (c.files + EntryFiles(h)).Keys == c.files.Keys + {p};
      assert c.files + EntryFiles(h) == c.files[p := h.size];
    } else {
      assert c.files + EntryFiles(h) == c.files;
    }
  }

  /** The order of the entries does not matter for success: an archive is unpacked
      exactly if it is not too long, every entry is sane, and no name stands both for
      a file and for a directory. Then its files and directories are added. */
  lemma {:induction false} UnpackIsExact(c: Content, hs: seq<Header>, room: int)
    requires c.files.Keys !! c.dirs
    decreases hs
    ensures Unpack(c, hs, room).Ok? <==>
      && |hs| <= Max(0, room) && Sane(hs)
      && (c.files + FilesOf(hs)).Keys !! c.dirs + DirsOf(hs)
    ensures Unpack(c, hs, room).Ok? ==>
      Unpack(c, hs, room).value == Content(c.files + FilesOf(hs), c.dirs + DirsOf(hs))
  {
    if hs == [] {
      assert c.files + FilesOf(hs) == c.files;
    } else if room > 0 {
      var h, rest := hs[0], hs[1..];
      AddIsExact(c, h);
      SaneOneMore(hs);
      Associates(c, EntryFiles(h), FilesOf(rest), EntryDirs(h), DirsOf(rest));
      if AddEntry(c, h).Ok? {
        UnpackIsExact(AddEntry(c, h).value, rest, room - 1);
      }
    }
  }

  lemma Associates(c: Content, files: map<Path, nat>, more: map<Path, nat>, dirs: set<Path>, others: set<Path>)
    ensures c.files + (files + more) == (c.files + files) + more
    ensures c.dirs + (dirs + others) == (c.dirs + dirs) + others
    ensures (c.files + files).Keys <= (c.files + (files + more)).Keys
  {
  }

  /******* The wrapper directory *******/

  /** The names right below the destination. */
  function Top(c: Content): set<string> {
    set p | p in c.files.Keys + c.dirs && |p| == 1 :: p[0]
  }

  lemma TopIsFirst(c: Content)
    ensures forall n :: n in Top(c) <==> [n] in c.files || [n] in c.dirs
  {
    forall n | [n] in c.files || [n] in c.dirs ensures n in Top(c) {
      assert [n][0] == n;
    }
    forall n | n in Top(c) ensures [n] in c.files || [n] in c.dirs {
      var p :| p in c.files.Keys + c.dirs && |p| == 1 && p[0] == n;
      assert p == [n];
    }
  }

  /** There is a single name, and it is that of a directory. */
  predicate Wraps(c: Content, w: string) {
    Top(c) == {w} && [w] in c.dirs
  }

  /** A single top-level directory gives way to its content, unless one of its own
      entries has its name. Everything else is left as it is. Without any entry the
      destination was never made. */
  ghost function Flattened(c: Content): Result<Content, ArchiveError> {
    if [] !in c.dirs then Err(NoRoot)
    else if w :| Wraps(c, w) then
      (if w in Top(At(c, [w])) then Err(Clash) else Ok(At(c, [w])))
    else Ok(c)
  }

  lemma FlattenedSingle(c: Content, w: string)
    requires [] in c.dirs && Wraps(c, w)
    ensures Flattened(c) == if w in Top(At(c, [w])) then Err(Clash) else Ok(At(c, [w]))
  {
    forall v | Wraps(c, v) ensures v == w {
      assert v in Top(c);
    }
  }

  lemma NotSingle(c: Content)
    requires [] in c.dirs && |Top(c)| != 1
    ensures Flattened(c) == Ok(c)
  {
    forall v ensures !Wraps(c, v) {
      assert |{v}| == 1;
    }
  }

  lemma NotDirectory(c: Content, w: string)
    requires [] in c.dirs && w in Top(c) && [w] !in c.dirs
    ensures Flattened(c) == Ok(c)
  {
    forall v ensures !Wraps(c, v) {
      assert w in {v} <==> w == v;
    }
  }

  ghost function Extracted(c: Content, hs: seq<Header>, maxEntries: int): Result<Content, ArchiveError> {
    var unpacked := Unpack(c, hs, maxEntries);
    if unpacked.Ok? then Flattened(unpacked.value) else unpacked
  }

  /** Everything inside one directory, as Gogs packs it. */
  function Wrapped(w: string, c: Content): Content {
    assert forall p: Path :: p == ([w] + p)[1..];
    Content(map p | p in c.files :: [w] + p := c.files[p], {[], [w]} + set d | d in c.dirs :: [w] + d)
  }

  /** Flattening undoes the wrapping exactly when the content has no entry with the
      name of the wrapper. */
  lemma FlattenUndoesWrap(w: string, c: Content)
    requires [] !in c.files
    ensures w in Top(c) ==> Flattened(Wrapped(w, c)) == Err(Clash)
    ensures w !in Top(c) ==> Flattened(Wrapped(w, c)) == Ok(c.(dirs := c.dirs + {[]}))
  {
    var wrapped := Wrapped(w, c);
    TopIsFirst(wrapped);
    forall v | v in Top(wrapped) ensures v == w {
      assert [v][0] == w;
    }
    assert [w] in wrapped.dirs;
    assert Top(wrapped) == {w};
    FlattenedSingle(wrapped, w);
    AtWrapped(w, c);
  }

  lemma AtWrapped(w: string, c: Content)
    ensures At(Wrapped(w, c), [w]) == c.(dirs := c.dirs + {[]})
  {
    var wrapped := Wrapped(w, c);
    var back := At(wrapped, [w]);
    assert forall p: Path :: ([w] + p)[1..] == p && [w] <= [w] + p;
    forall p | p in c.files ensures p in back.files && back.files[p] == c.files[p] {
      assert [w] + p in wrapped.files;
    }
    assert [w] + [] == [w];
    forall p | p in c.dirs + {[]} ensures p in back.dirs {
      assert [w] + p in wrapped.dirs;
    }
  }

  lemma AboveOne(w: string)
    ensures Above([w]) == {[], [w]}
  {
    assert [w][..0] == [] && [w][..1] == [w];
  }

  lemma UnpackOne(h: Header, room: int)
    requires h.kind == Directory && SafeName(h.name).Some? && room > 0
    ensures AddEntry(EMPTY, h) == Ok(Content(map[], Above(SafeName(h.name).value)))
    ensures Unpack(EMPTY, [h], room) == AddEntry(EMPTY, h)
  {
    var d := SafeName(h.name).value;
    assert EMPTY.dirs + Above(d) == Above(d);
    assert [h][1..] == [];
  }

  /** A repository called app with a directory app at its root cannot be unpacked. */
  lemma ClashExample(maxEntries: int)
    requires maxEntries >= 2
    ensures Extracted(EMPTY, WrapArchive("app", [Header(Directory, "app/", 0, 0)]), maxEntries) == Err(Clash)
  {
    var inner := [Header(Directory, "app/", 0, 0)];
    SafeDirectory("app");
    assert "app" + "/" == "app/";
    UnpackOne(inner[0], maxEntries - 1);
    WrappedArchive("app", inner, maxEntries - 1);
    AboveOne("app");
    TopIsFirst(Content(map[], Above(["app"])));
  }

  /** An archive without a wrapper is left untouched exactly when its content is
      not a single directory. */
  lemma FlattenLeavesUnwrapped(c: Content)
    requires [] in c.dirs
    ensures Flattened(c) == Ok(c) <==> forall w :: !Wraps(c, w)
  {
    if w :| Wraps(c, w) {
      FlattenedSingle(c, w);
      if At(c, [w]) == c {
        assert [w] in At(c, [w]).dirs && [w][0] == w;
      }
    }
  }

  /******* Archives that are wrapped *******/

  function Inside(w: string, hs: seq<Header>): seq<Header> {
    if hs == [] then [] else [hs[0].(name := w + "/" + hs[0].name)] + Inside(w, hs[1..])
  }

  /** What `git archive` makes of an archive when it is told to put a prefix before each name. */
  function WrapArchive(w: string, hs: seq<Header>): seq<Header> {
    [Header(Directory, w + "/", 0, 0)] + Inside(w, hs)
  }

  predicate IsComponent(w: string) {
    IsPlain(w) && '/' !in w && '\0' !in w
  }

  /** One entry in the wrapper adds in the wrapper what it adds by itself. */
  lemma AddInside(w: string, c: Content, h: Header)
    requires IsComponent(w) && AddEntry(c, h).Ok?
    ensures AddEntry(Wrapped(w, c), h.(name := w + "/" + h.name)) == Ok(Wrapped(w, AddEntry(c, h).value))
  {
    if h.kind != Other {
      SafeBelow(w, h.name);
      var p := SafeName(h.name).value;
      if h.kind == Directory {
        DirectoryInside(w, c, p);
      } else {
        assert Parent([w] + p) == [w] + Parent(p);
        DirectoryInside(w, c, Parent(p));
        FileInside(w, c, p, h.size);
      }
    }
  }

  lemma DirectoryInside(w: string, c: Content, d: Path)
    ensures c.files.Keys !! Above(d) ==> Wrapped(w, c).files.Keys !! Above([w] + d)
    ensures Wrapped(w, c.(dirs := c.dirs + Above(d))).dirs == Wrapped(w, c).dirs + Above([w] + d)
  {
    assert forall p: Path :: ([w] + p)[1..] == p;
    forall i | 0 < i <= |d| + 1 ensures ([w] + d)[..i] == [w] + d[..i - 1] {
    }
    forall q | q in Above([w] + d) ensures q == [] || (q == [w] + q[1..] && q[1..] in Above(d)) {
      var i :| 0 <= i <= |d| + 1 && q == ([w] + d)[..i];
      assert i > 0 ==> q == [w] + d[..i - 1];
    }
    forall p | p in Above(d) ensures [w] + p in Above([w] + d) {
      var i :| 0 <= i <= |d| && p == d[..i];
      var j := i + 1;
      assert [w] + p == ([w] + d)[..j];
    }
    assert ([w] + d)[..0] == [];
  }

  lemma FileInside(w: string, c: Content, p: Path, size: nat)
    ensures p !in c.dirs && p != [] ==> [w] + p !in Wrapped(w, c).dirs
    ensures Wrapped(w, c.(files := c.files[p := size])).files == Wrapped(w, c).files[[w] + p := size]
  {
    assert forall q: Path :: ([w] + q)[1..] == q;
  }

  lemma {:induction false} UnpackInside(w: string, c: Content, hs: seq<Header>, room: int, end: Content)
    requires IsComponent(w) && Unpack(c, hs, room) == Ok(end)
    ensures Unpack(Wrapped(w, c), Inside(w, hs), room) == Ok(Wrapped(w, end))
    decreases hs
  {
    if hs != [] {
      var next := AddEntry(c, hs[0]).value;
      var all := Inside(w, hs);
      AddInside(w, c, hs[0]);
      UnpackInside(w, next, hs[1..], room - 1, end);
      assert all[1..] == Inside(w, hs[1..]);
      UnpackNext(Wrapped(w, c), all, room, Wrapped(w, next));
    }
  }

  lemma UnpackNext(c: Content, hs: seq<Header>, room: int, next: Content)
    requires hs != [] && room > 0 && AddEntry(c, hs[0]) == Ok(next)
    ensures Unpack(c, hs, room) == Unpack(next, hs[1..], room - 1)
  {
  }

  /** A wrapped archive ends as its own content, unless this has an entry with the
      name of the wrapper; then it is refused. */
  lemma WrappedArchive(w: string, hs: seq<Header>, maxEntries: int)
    requires IsComponent(w) && maxEntries >= 0 && Unpack(EMPTY, hs, maxEntries).Ok?
    ensures var c := Unpack(EMPTY, hs, maxEntries).value;
      Extracted(EMPTY, WrapArchive(w, hs), maxEntries + 1)
        == if w in Top(c) then Err(Clash) else Ok(c.(dirs := c.dirs + {[]}))
  {
    var c := Unpack(EMPTY, hs, maxEntries).value;
    var all, first := WrapArchive(w, hs), Header(Directory, w + "/", 0, 0);
    SafeDirectory(w);
    assert all[0] == first && all[1..] == Inside(w, hs);
    AboveOne(w);
    UnpackOne(first, 1);
    assert Wrapped(w, EMPTY) == Content(map[], {[], [w]});
    UnpackInside(w, EMPTY, hs, maxEntries, c);
    UnpackIsExact(EMPTY, hs, maxEntries);
    FilesHaveNames(hs);
    FlattenUndoesWrap(w, c);
  }

  lemma {:induction false} FilesHaveNames(hs: seq<Header>)
    ensures [] !in FilesOf(hs)
  {
    if hs != [] {
      FilesHaveNames(hs[1..]);
    }
  }

  /******* When extraction succeeds *******/

  /** A safe entry makes the destination. */
  lemma {:induction false} RootIsMade(hs: seq<Header>)
    requires Sane(hs)
    ensures [] in DirsOf(hs) <==> exists h :: h in hs && h.kind != Other
  {
    if hs != [] {
      var h := hs[0];
      SaneOneMore(hs);
      RootIsMade(hs[1..]);
      if h.kind != Other {
        var p := SafeName(h.name).value;
        assert p[..0] == [] && Parent(p)[..0] == [];
        assert [] in EntryDirs(h) && h in hs;
      } else if [] in DirsOf(hs) {
        var g :| g in hs[1..] && g.kind != Other;
        assert g in hs;
      }
      assert forall g | g in hs :: g == h || g in hs[1..];
    }
  }

  /** An archive is extracted into a new directory exactly if it is not too long, every
      entry is sane, some entry is no link or device, no name stands both for a file and
      for a directory, and no wrapper holds an entry of its own name. */
  lemma ExtractedIsExact(hs: seq<Header>, maxEntries: int)
    ensures var c := Content(FilesOf(hs), DirsOf(hs));
      Extracted(EMPTY, hs, maxEntries).Ok? <==>
        && |hs| <= Max(0, maxEntries) && Sane(hs) && c.files.Keys !! c.dirs
        && (exists h :: h in hs && h.kind != Other)
        && (forall w | Wraps(c, w) :: w !in Top(At(c, [w])))
  {
    var c := Content(FilesOf(hs), DirsOf(hs));
    UnpackIsExact(EMPTY, hs, maxEntries);
    assert map[] + c.files == c.files && {} + c.dirs == c.dirs;
    if Unpack(EMPTY, hs, maxEntries).Ok? {
      RootIsMade(hs);
      if [] in c.dirs {
        forall w | Wraps(c, w) ensures Flattened(c).Ok? <==> w !in Top(At(c, [w])) {
          FlattenedSingle(c, w);
        }
      }
    }
  }

  /******* The bounded reader *******/

  /** How a read ends: with data and more to come, at the end of the stream, or refused. */
  datatype Status = More | Eof | Exceeded

  /** A stream, of which `early` says whether its end is reported together with its
      last bytes or by the read after them, and a limit on what passes. */
  class BoundedReader {
    const data: seq<bv8>
    const early: bool
    const maximum: int
    var count: int

    constructor (data: seq<bv8>, early: bool, maximum: int)
      ensures this.data == data && this.early == early && this.maximum == maximum && count == 0
    {
      this.data, this.early, this.maximum, count := data, early, maximum, 0;
    }

    ghost predicate Valid()
      reads this
    {
      0 <= count <= |data| && (count > 0 ==> count <= maximum)
    }

    /** One read into a buffer of the given length, which may be empty; the stream gives
        up to `give` of the bytes it has, perhaps none. It reports its end along with its
        last bytes, if it does so early, or to a read that could have had more. */
    method Read(length: nat, give: nat) returns (read: seq<bv8>, status: Status)
      requires Valid()
      modifies this`count
      ensures Valid() && count == old(count) + |read| && read == data[old(count)..count]
      ensures status.Exceeded? <==> old(count) >= maximum
      ensures status.Exceeded? ==> read == []
      ensures !status.Exceeded? ==> |read| == Min(Min(length, give), Min(maximum - old(count), |data| - old(count)))
      ensures !status.Exceeded? ==>
        (status.Eof? <==> count == |data| && if read == [] then length > 0 && give > 0 else early)
    {
      if count >= maximum {
        return [], Exceeded;
      }
      var room := length;
      if room > maximum - count {
        room := maximum - count;
      }
      var n := Min(Min(room, give), |data| - count);
      read := data[count..count + n];
      count := count + n;
      status := if count == |data| && (if n == 0 then room > 0 && give > 0 else early) then Eof else More;
    }
  }

  /** The condition under which a stream passes: it is shorter than the limit, or
      exactly as long with its end reported along with its last bytes. */
  predicate Passes(size: nat, early: bool, maximum: int) {
    size < maximum || (early && 0 < size == maximum)
  }

  /** A read: the length of its buffer, and how much the stream would give. */
  datatype Attempt = Attempt(length: nat, give: nat)

  /** How many of some reads have a buffer and are given something. */
  function Productive(plan: seq<Attempt>): nat {
    if plan == [] then 0
    else
      var last := plan[|plan| - 1];
      Productive(plan[..|plan| - 1]) + if last.length > 0 && last.give > 0 then 1 else 0
  }

  /** Reading on and on, whatever the sizes of the buffers and of the pieces, some of
      which may be empty: enough reads get to the end, or are refused. */
  method Drain(reader: BoundedReader, plan: seq<Attempt>) returns (out: seq<bv8>, status: Status)
    requires reader.Valid() && reader.count == 0
    modifies reader
    ensures status.Eof? ==> Passes(|reader.data|, reader.early, reader.maximum) && out == reader.data
    ensures status.Exceeded? ==> !Passes(|reader.data|, reader.early, reader.maximum)
    ensures status.Exceeded? ==> |out| == Max(0, reader.maximum) && out <= reader.data
    ensures status.More? ==> out <= reader.data && Productive(plan) <= |out|
    ensures Productive(plan) > |reader.data| ==> !status.More?
  {
    out, status := [], More;
    for i := 0 to |plan|
      invariant reader.Valid() && out == reader.data[..reader.count] && status.More?
      invariant reader.count == |reader.data| ==> reader.count == 0 || !reader.early
      invariant Productive(plan[..i]) <= reader.count
    {
      var read;
      read, status := reader.Read(plan[i].length, plan[i].give);
      out := out + read;
      if !status.More? {
        return;
      }
      assert plan[..i + 1][..i] == plan[..i];
    }
    assert plan[..|plan|] == plan;
  }
}
