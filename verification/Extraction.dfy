/**
 Filling one snapshot under the writer lock: making room, unpacking the archive
 entry by entry, removing its wrapper, and writing the metadata. Each file is
 charged for the growth it causes, an overwritten one for the difference only.
 */
module Extraction {
  import opened Wrappers
  import opened DiskTree
  import opened Eviction
  import opened Quota
  import opened DiskCache
  import opened BudgetFiles
  import opened Integers
  import opened SafeNames
  import opened Archive
  import opened Destination
  import opened Flattening

  /******* What every operation keeps *******/

  /** The books of a budget and the record of its disk. */
  datatype State = State(keep: Option<Path>, book: Book, history: seq<map<Path, nat>>)

  ghost function StateOf(budget: Budget): State
    reads budget, budget.disk
  {
    State(budget.keep, budget.Books(), budget.disk.history)
  }

  /** Outside the kept entry files are only evicted; and if what is used and known to be
      free was within the limit, it still is, and no change took the disk beyond it. */
  ghost predicate Leads(s: State, t: State) {
    match s.keep
    case None => s == t
    case Some(keep) =>
      && t.keep == s.keep && t.book.maxBytes == s.book.maxBytes
      && (forall p | p in t.book.files && !(keep <= p) :: p in s.book.files && t.book.files[p] == s.book.files[p])
      && (s.book.maxBytes > 0 && Backed(s.book) ==> Backed(t.book) && Extends(s.history, t.history, s.book.maxBytes))
  }

  lemma LeadsOn(s: State, t: State, u: State)
    requires Leads(s, t) && Leads(t, u)
    ensures Leads(s, u)
  {
    if s.keep.Some? && s.book.maxBytes > 0 && Backed(s.book) {
      ExtendsOn(s.history, t.history, u.history, s.book.maxBytes);
    }
  }

  /** A reservation: what it does to the books, and that it only evicts. */
  ghost predicate Reserves(s: State, t: State, growth: nat, ok: bool) {
    match s.keep
    case None => false
    case Some(_) => t.keep == s.keep && Reserved(s.book, t.book, growth, ok) && Extends(s.history, t.history, 0)
  }

  /** A reservation, and a change of one file within what it granted. */
  lemma ChangeLeads(s: State, mid: State, t: State, p: Path, size: nat, growth: nat)
    requires Reserves(s, mid, growth, true) && t.keep == s.keep && s.keep.value <= p
    requires size <= (if p in mid.book.files then mid.book.files[p] else 0) + growth
    requires t.book == mid.book.(files := mid.book.files[p := size]) && t.history == mid.history + [t.book.files]
    ensures Leads(s, t) && Step(s.book, t.book)
  {
    ChangeIsStep(s.book, mid.book, t.book, p, size, growth);
    if s.book.maxBytes > 0 && Backed(s.book) {
      ReservedKeepsBacked(s.book, mid.book, growth, true);
      BytesUpdate(mid.book.files, p, size);
      ShrinksThenGrows(s.history, mid.history, t.book.files, s.book.maxBytes);
    }
  }

  lemma ReservationLeads(s: State, t: State, growth: nat, ok: bool)
    requires Reserves(s, t, growth, ok)
    ensures Leads(s, t) && Step(s.book, t.book)
  {
    ReservationIsStep(s.book, t.book, growth, ok);
    if s.book.maxBytes > 0 && Backed(s.book) {
      ReservedKeepsBacked(s.book, t.book, growth, ok);
      ShrinksIsWithin(s.history, t.history, s.book.maxBytes);
    }
  }

  /** The limit is on, and so much growth would break it if nothing were evicted. */
  ghost predicate TooFull(s: State, growth: nat) {
    s.book.maxBytes > 0 && Bytes(s.book.files) + growth > s.book.maxBytes
  }

  ghost predicate GrewBy(s: State, t: State, growth: nat) {
    Bytes(t.book.files) <= Bytes(s.book.files) + growth
  }

  /** One step of the books that adds no more than this. */
  ghost predicate StepsBy(s: State, t: State, growth: nat) {
    match s.keep
    case None => false
    case Some(_) => Leads(s, t) && Step(s.book, t.book) && GrewBy(s, t, growth)
  }

  /** The result is the expected one, unless room was refused, for which the disk must be
      full; and what lies in the destination is then the expected content. */
  ghost predicate Follows<T>(r: Result<T, ArchiveError>, expected: Result<Content, ArchiveError>, now: Content, full: bool) {
    match r
    case Ok(_) => expected == Ok(now)
    case Err(e) => if e == Capacity then full else expected == Err(e)
  }

  /******* One entry *******/

  /** Creates or truncates the file and copies what the archive delivers. */
  method WriteFile(disk: Disk, target: Path, got: nat, now: int) returns (ok: bool)
    requires disk.Tree() && target != []
    modifies disk
    ensures disk.Tree()
    ensures ok <==> old(disk.files).Keys !! Prefixes(Parent(target)) && target !in old(disk.dirs)
    ensures ok ==> disk.files == old(disk.files)[target := got] && disk.history == old(disk.history) + [disk.files]
    ensures ok ==> disk.dirs.Keys == old(disk.dirs.Keys) + Prefixes(Parent(target))
    ensures !ok ==> disk.files == old(disk.files) && disk.history == old(disk.history) && disk.dirs.Keys == old(disk.dirs.Keys)
  {
    ParentPrefixes(target);
    ok := disk.MkdirAll(Parent(target), now);
    if !ok || target in disk.dirs {
      return false;
    }
    disk.SetFile(target, got);
  }

  /** The admission of growth: others may be evicted, nothing in the kept entry changes. */
  method Admit(budget: Budget, growth: nat, now: int, held: set<Path>) returns (ok: bool)
    requires budget.disk.Tree() && budget.Keeping()
    modifies budget`ready, budget`free, budget.disk
    ensures budget.disk.Tree() && budget.Keeping()
    ensures SameBelow(old(Whole(budget.disk)), Whole(budget.disk), budget.keep.value)
    ensures Reserves(old(StateOf(budget)), StateOf(budget), growth, ok)
    ensures !ok <==> old(IsRefused(budget, growth, now, held))
    ensures !ok ==> old(TooFull(StateOf(budget), growth))
  {
    OutsideShrinks(budget.disk.files, MayGo(budget.disk.base, budget.disk.files, budget.disk.dirs, budget.ToRequest(0, now, held)));
    ok := budget.Reserve(growth, now, held);
  }

  /** There is a limit, the growth is not known to be free, and it does not fit beside
      the bytes that nothing can free. */
  ghost predicate IsRefused(budget: Budget, growth: nat, now: int, held: set<Path>)
    reads budget, budget.disk
  {
    && budget.maxBytes > 0
    && !(budget.ready && growth <= budget.free)
    && budget.Unfreeable(now, held) + growth > budget.maxBytes
  }

  /** A file below the destination: whether it can be written, and what that makes of the content. */
  lemma FileEntry(c: Content, keep: Path, d: Path, p: Path, h: Header, got: nat)
    requires IsPlace(c, keep, d) && p != []
    ensures Parent(d + p) == d + Parent(p)
    ensures var blocked := d + p in c.dirs || !(c.files.Keys !! Prefixes(d + Parent(p)));
      var after := Content(c.files[d + p := got], c.dirs + Prefixes(d + Parent(p)));
      && Beside(after, keep, d) == Beside(c, keep, d)
      && (blocked ==> AddFile(At(c, d), p, h) == Err(InTheWay))
      && (!blocked && h.got < h.size ==> AddFile(At(c, d), p, h) == Err(Incomplete))
      && (!blocked && h.got >= h.size && got == h.size ==> AddFile(At(c, d), p, h) == Ok(At(after, d)))
  {
    var parents := c.(dirs := c.dirs + Prefixes(d + Parent(p)));
    DirectoriesAdded(c, keep, d, Parent(p));
    FileAdded(c, keep, d, p, got);
    FileAddedAt(parents, d, p, got);
    FileAddedBeside(parents, keep, d, p, got);
  }

  /** One file gets a length, or is blocked and nothing changes. */
  ghost predicate Puts(s: State, t: State, p: Path, size: nat, blocked: bool) {
    match s.keep
    case None => false
    case Some(_) =>
      if blocked then t == s
      else
        && t.keep == s.keep && t.book == s.book.(files := s.book.files[p := size])
        && t.history == s.history + [t.book.files]
  }

  /** Writing the file of an entry, apart from its charge. */
  method PutFile(budget: Budget, d: Path, p: Path, h: Header, now: int) returns (r: Result<nat, ArchiveError>)
    requires budget.disk.Tree() && budget.Keeping() && p != []
    requires budget.keep.value <= d && |d| == |budget.keep.value| + 1
    modifies budget.disk
    ensures budget.disk.Tree() && budget.Keeping()
    ensures r.Ok? ==> r.value == h.size
    ensures Follows(r, AddFile(old(At(Whole(budget.disk), d)), p, h), At(Whole(budget.disk), d), false)
    ensures Beside(Whole(budget.disk), budget.keep.value, d) == old(Beside(Whole(budget.disk), budget.keep.value, d))
    ensures Puts(old(StateOf(budget)), StateOf(budget), d + p, Min(h.got, h.size), r == Err(InTheWay))
    ensures r != Err(InTheWay) ==> d + p !in old(budget.disk.dirs)
  {
    ghost var c := Whole(budget.disk);
    var got := Min(h.got, h.size);
    TreeIsPlace(budget.disk, budget.keep.value, d);
    FileEntry(c, budget.keep.value, d, p, h, got);
    var written := WriteFile(budget.disk, d + p, got, now);
    r := if !written then Err(InTheWay) else if got < h.size then Err(Incomplete) else Ok(got);
  }

  function LengthAt(files: map<Path, nat>, p: Path): nat {
    if p in files then files[p] else 0
  }

  /** What a file entry is charged: its size, less that of what has the name. */
  function GrowthOf(c: Content, target: Path, size: nat, dirSize: nat): (growth: nat)
    ensures growth <= size
  {
    if target in c.files then Max(0, size - c.files[target])
    else if target in c.dirs then Max(0, size - dirSize)
    else size
  }

  /** The charge for a file entry: its size, or what it exceeds the file it replaces by.
      `dirSize` is what the system reports as the size of a directory that has the name. */
  method ChargeEntry(budget: Budget, d: Path, p: Path, size: nat, dirSize: nat, now: int, held: set<Path>)
    returns (ok: bool, ghost growth: nat)
    requires budget.disk.Tree() && budget.Keeping() && budget.keep.value <= d
    modifies budget`ready, budget`free, budget.disk
    ensures budget.disk.Tree() && budget.Keeping()
    ensures At(Whole(budget.disk), d) == old(At(Whole(budget.disk), d))
    ensures Beside(Whole(budget.disk), budget.keep.value, d) == old(Beside(Whole(budget.disk), budget.keep.value, d))
    ensures Reserves(old(StateOf(budget)), StateOf(budget), growth, ok)
    ensures d + p !in budget.disk.dirs ==> size <= LengthAt(budget.disk.files, d + p) + growth
    ensures growth == old(GrowthOf(Whole(budget.disk), d + p, size, dirSize))
    ensures !ok <==> old(IsRefused(budget, GrowthOf(Whole(budget.disk), d + p, size, dirSize), now, held))
    ensures !ok ==> old(TooFull(StateOf(budget), size))
  {
    ghost var c := Whole(budget.disk);
    var target, room := d + p, size;
    if target in budget.disk.files {
      room := Max(0, size - budget.disk.files[target]);
    } else if target in budget.disk.dirs {
      room := Max(0, size - dirSize);
    }
    growth := room;
    assert growth == GrowthOf(c, target, size, dirSize);
    ok := Admit(budget, room, now, held);
    SameLength(c, Whole(budget.disk), budget.keep.value, target);
    SameAt(c, Whole(budget.disk), budget.keep.value, d);
  }

  lemma SameLength(a: Content, b: Content, keep: Path, p: Path)
    requires SameBelow(a, b, keep) && keep <= p
    ensures LengthAt(a.files, p) == LengthAt(b.files, p) && (p in a.dirs <==> p in b.dirs)
  {
  }

  /** The charge for a file entry, then the file. */
  method WriteEntry(budget: Budget, d: Path, p: Path, h: Header, dirSize: nat, now: int, held: set<Path>)
    returns (r: Result<nat, ArchiveError>)
    requires budget.disk.Tree() && budget.Keeping() && p != []
    requires budget.keep.value <= d && |d| == |budget.keep.value| + 1
    modifies budget`ready, budget`free, budget.disk
    ensures budget.disk.Tree() && budget.Keeping()
    ensures r.Ok? ==> r.value == h.size
    ensures Follows(r, AddFile(old(At(Whole(budget.disk), d)), p, h), At(Whole(budget.disk), d),
      old(TooFull(StateOf(budget), h.size)))
    ensures r == Err(Capacity)
      <==> old(IsRefused(budget, GrowthOf(Whole(budget.disk), d + p, h.size, dirSize), now, held))
    ensures Beside(Whole(budget.disk), budget.keep.value, d) == old(Beside(Whole(budget.disk), budget.keep.value, d))
    ensures StepsBy(old(StateOf(budget)), StateOf(budget), h.size)
  {
    ghost var s := StateOf(budget);
    var reserved, growth := ChargeEntry(budget, d, p, h.size, dirSize, now, held);
    ghost var mid := StateOf(budget);
    if reserved {
      r := PutFile(budget, d, p, h, now);
    } else {
      r := Err(Capacity);
    }
    EntryLeads(s, mid, StateOf(budget), d + p, Min(h.got, h.size), growth, reserved, !reserved || r == Err(InTheWay),
      h.size);
  }

  lemma ReservingAddsNothing(b: Book, b': Book, growth: nat, ok: bool)
    requires Reserved(b, b', growth, ok)
    ensures Bytes(b'.files) <= Bytes(b.files)
  {
    if gone: set<Path> :| b'.files == Outside(b.files, gone) {
      OutsideShrinks(b.files, gone);
    }
  }

  lemma EntryLeads(s: State, mid: State, t: State, p: Path, size: nat, growth: nat, reserved: bool, blocked: bool,
      bound: nat)
    requires Reserves(s, mid, growth, reserved) && s.keep.value <= p && size <= bound
    requires Puts(mid, t, p, size, blocked) && (!reserved ==> blocked)
    requires !blocked ==> size <= LengthAt(mid.book.files, p) + growth
    ensures StepsBy(s, t, bound)
  {
    ReservingAddsNothing(s.book, mid.book, growth, reserved);
    if !blocked {
      BytesUpdate(mid.book.files, p, size);
      ChangeLeads(s, mid, t, p, size, growth);
    } else {
      ReservationLeads(s, mid, growth, reserved);
    }
  }

  /******* The archive *******/

  /** What the program meets at one moment: the clock, locks held elsewhere, and
      the size of a directory. */
  datatype Moment = Moment(now: int, held: set<Path>, dirSize: nat)

  /** A directory entry adds no bytes. */
  method MakeDirectory(budget: Budget, d: Path, p: Path, now: int) returns (r: Result<nat, ArchiveError>)
    requires budget.disk.Tree() && budget.Keeping() && budget.keep.value <= d && |d| == |budget.keep.value| + 1
    modifies budget.disk
    ensures budget.disk.Tree() && budget.Keeping()
    ensures Follows(r, AddDirectory(old(At(Whole(budget.disk), d)), p), At(Whole(budget.disk), d), false)
    ensures Beside(Whole(budget.disk), budget.keep.value, d) == old(Beside(Whole(budget.disk), budget.keep.value, d))
    ensures StateOf(budget) == old(StateOf(budget))
  {
    ghost var c := Whole(budget.disk);
    TreeIsPlace(budget.disk, budget.keep.value, d);
    DirectoriesAdded(c, budget.keep.value, d, p);
    var made := budget.disk.MkdirAll(d + p, now);
    r := if made then Ok(0) else Err(InTheWay);
  }

  lemma NothingLeads(s: State)
    requires s.history != []
    ensures Leads(s, s) && (s.keep.Some? ==> StepsBy(s, s, 0))
  {
    assert Spends(s.book, s.book, 0);
    if s.book.maxBytes > 0 {
      ExtendsItself(s.history, s.book.maxBytes);
    }
  }

  /** The body of the loop for one header. */
  method UnpackEntry(budget: Budget, d: Path, h: Header, stats: Stats, m: Moment)
    returns (r: Result<Stats, ArchiveError>)
    requires budget.disk.Tree() && budget.Keeping() && budget.keep.value <= d && |d| == |budget.keep.value| + 1
    modifies budget`ready, budget`free, budget.disk
    ensures budget.disk.Tree() && budget.Keeping()
    ensures r.Ok? ==> r.value == AddStats(stats, h)
    ensures Follows(r, AddEntry(old(At(Whole(budget.disk), d)), h), At(Whole(budget.disk), d),
      old(TooFull(StateOf(budget), Cost(h))))
    ensures Beside(Whole(budget.disk), budget.keep.value, d) == old(Beside(Whole(budget.disk), budget.keep.value, d))
    ensures StepsBy(old(StateOf(budget)), StateOf(budget), Cost(h))
  {
    NothingLeads(StateOf(budget));
    if h.kind == Other {
      return Ok(stats.(skipped := stats.skipped + 1));
    }
    var p := SafeName(h.name);
    if p == None {
      return Err(UnsafeEntry);
    }
    if h.kind == Directory {
      var made := MakeDirectory(budget, d, p.value, m.now);
      return if made.Err? then Err(made.error) else Ok(stats);
    }
    var written := WriteEntry(budget, d, p.value, h, m.dirSize, m.now, m.held);
    r := if written.Err? then Err(written.error) else Ok(AddStats(stats, h.(size := written.value)));
  }

  /** The wrapper is removed within the books: nothing grows. */
  method Unwrap(budget: Budget, d: Path, stats: Stats) returns (r: Result<Stats, ArchiveError>)
    requires budget.disk.Tree() && budget.Keeping() && budget.keep.value <= d && |d| == |budget.keep.value| + 1
    modifies budget.disk
    ensures budget.disk.Tree() && budget.Keeping()
    ensures r.Ok? ==> r.value == stats
    ensures Follows(r, Flattened(old(At(Whole(budget.disk), d))), At(Whole(budget.disk), d), false)
    ensures GrewBy(old(StateOf(budget)), StateOf(budget), 0)
    ensures Beside(Whole(budget.disk), budget.keep.value, d) == old(Beside(Whole(budget.disk), budget.keep.value, d))
    ensures Leads(old(StateOf(budget)), StateOf(budget))
  {
    ghost var s, c := StateOf(budget), Whole(budget.disk);
    var error := FlattenArchivePrefix(budget.disk, d);
    SameBeside(c, Whole(budget.disk), budget.keep.value, d);
    if s.book.maxBytes > 0 {
      ShrinksIsWithin(s.history, budget.disk.history, s.book.maxBytes);
    }
    r := if error.None? then Ok(stats) else Err(error.value);
  }

  /** Where the loop stands: what is left to do from here gives what was asked for. */
  ghost predicate Halfway(c: Content, headers: seq<Header>, maxEntries: int, i: nat, now: Content, stats: Stats) {
    match stats
    case Stats(_, _, _) =>
      && i <= |headers|
      && Unpack(c, headers, maxEntries) == Unpack(now, headers[i..], maxEntries - i)
      && StatsFrom(Stats(0, 0, 0), headers) == StatsFrom(stats, headers[i..])
  }

  lemma OneMoreEntry(c: Content, headers: seq<Header>, maxEntries: int, i: nat, now: Content, stats: Stats)
    requires i < |headers| && Halfway(c, headers, maxEntries, i, now, stats)
    ensures i >= maxEntries ==> Unpack(c, headers, maxEntries) == Err(TooManyEntries)
    ensures i < maxEntries && AddEntry(now, headers[i]).Err? ==>
      Unpack(c, headers, maxEntries) == AddEntry(now, headers[i])
    ensures i < maxEntries && AddEntry(now, headers[i]).Ok? ==>
      Halfway(c, headers, maxEntries, i + 1, AddEntry(now, headers[i]).value, AddStats(stats, headers[i]))
  {
    assert headers[i..][0] == headers[i] && headers[i..][1..] == headers[i + 1..];
  }

  /** The entries that are still to come are not counted yet. */
  ghost predicate Filling(s: State, t: State, headers: seq<Header>, i: nat) {
    match s.keep
    case None => false
    case Some(_) =>
      && i <= |headers| && t.book.maxBytes == s.book.maxBytes
      && Bytes(t.book.files) + Volume(headers[i..]) <= Bytes(s.book.files) + Volume(headers)
  }

  lemma FillingOn(s: State, t: State, u: State, headers: seq<Header>, i: nat)
    requires i < |headers| && Filling(s, t, headers, i)
    requires StepsBy(t, u, Cost(headers[i]))
    ensures Filling(s, u, headers, i + 1) && GrewBy(s, u, Volume(headers))
    ensures TooFull(t, Cost(headers[i])) ==> TooFull(s, Volume(headers))
  {
    assert headers[i..][1..] == headers[i + 1..];
  }

  /** The loop over the headers. */
  method UnpackArchive(budget: Budget, d: Path, headers: seq<Header>, maxEntries: int, moments: nat -> Moment)
    returns (r: Result<Stats, ArchiveError>)
    requires budget.disk.Tree() && budget.Keeping() && budget.keep.value <= d && |d| == |budget.keep.value| + 1
    modifies budget`ready, budget`free, budget.disk
    ensures budget.disk.Tree() && budget.Keeping()
    ensures r.Ok? ==> r.value == StatsFrom(Stats(0, 0, 0), headers)
    ensures Follows(r, Unpack(old(At(Whole(budget.disk), d)), headers, maxEntries), At(Whole(budget.disk), d),
      old(TooFull(StateOf(budget), Volume(headers))))
    ensures GrewBy(old(StateOf(budget)), StateOf(budget), Volume(headers))
    ensures Beside(Whole(budget.disk), budget.keep.value, d) == old(Beside(Whole(budget.disk), budget.keep.value, d))
    ensures Leads(old(StateOf(budget)), StateOf(budget))
  {
    ghost var s, c := StateOf(budget), At(Whole(budget.disk), d);
    NothingLeads(s);
    var stats := Stats(0, 0, 0);
    var entries := 0;
    assert headers[0..] == headers;
    assert Filling(s, s, headers, 0);
    for i := 0 to |headers|
      invariant budget.disk.Tree() && budget.Keeping() && entries == i
      invariant Halfway(c, headers, maxEntries, i, At(Whole(budget.disk), d), stats)
      invariant Beside(Whole(budget.disk), budget.keep.value, d) == old(Beside(Whole(budget.disk), budget.keep.value, d))
      invariant Leads(s, StateOf(budget)) && Filling(s, StateOf(budget), headers, i)
    {
      ghost var t := StateOf(budget);
      OneMoreEntry(c, headers, maxEntries, i, At(Whole(budget.disk), d), stats);
      entries := entries + 1;
      if entries > maxEntries {
        return Err(TooManyEntries);
      }
      var next := UnpackEntry(budget, d, headers[i], stats, moments(i));
      LeadsOn(s, t, StateOf(budget));
      FillingOn(s, t, StateOf(budget), headers, i);
      if next.Err? {
        return next;
      }
      stats := next.value;
    }
    assert headers[|headers|..] == [];
    r := Ok(stats);
  }

  /** The archive: its entries, then the removal of the wrapper. */
  method ExtractArchive(budget: Budget, d: Path, headers: seq<Header>, maxEntries: int, moments: nat -> Moment)
    returns (r: Result<Stats, ArchiveError>)
    requires budget.disk.Tree() && budget.Keeping() && budget.keep.value <= d && |d| == |budget.keep.value| + 1
    modifies budget`ready, budget`free, budget.disk
    ensures budget.disk.Tree() && budget.Keeping()
    ensures r.Ok? ==> r.value == StatsFrom(Stats(0, 0, 0), headers)
    ensures Follows(r, Extracted(old(At(Whole(budget.disk), d)), headers, maxEntries), At(Whole(budget.disk), d),
      old(TooFull(StateOf(budget), Volume(headers))))
    ensures GrewBy(old(StateOf(budget)), StateOf(budget), Volume(headers))
    ensures Beside(Whole(budget.disk), budget.keep.value, d) == old(Beside(Whole(budget.disk), budget.keep.value, d))
    ensures Leads(old(StateOf(budget)), StateOf(budget))
  {
    ghost var s := StateOf(budget);
    r := UnpackArchive(budget, d, headers, maxEntries, moments);
    if r.Ok? {
      ghost var t := StateOf(budget);
      r := Unwrap(budget, d, r.value);
      LeadsOn(s, t, StateOf(budget));
    }
  }

  /******* The whole snapshot *******/

  const SNAPSHOT := "snapshot"

  function Written(c: Content, p: Path, size: nat): Content {
    c.(files := c.files[p := size])
  }

  /** Writing the document, apart from its charge. */
  method PutDocument(budget: Budget, directory: Path, size: nat, now: int) returns (ok: bool)
    requires budget.disk.Tree() && budget.Keeping() && budget.keep == Some(directory)
    modifies budget.disk
    ensures budget.disk.Tree() && budget.Keeping()
    ensures ok <==> directory + [METADATA] !in old(budget.disk.dirs)
    ensures At(Whole(budget.disk), directory + [SNAPSHOT]) == old(At(Whole(budget.disk), directory + [SNAPSHOT]))
    ensures ok ==> (Beside(Whole(budget.disk), directory, directory + [SNAPSHOT])
      == Written(old(Beside(Whole(budget.disk), directory, directory + [SNAPSHOT])), directory + [METADATA], size))
    ensures Puts(old(StateOf(budget)), StateOf(budget), directory + [METADATA], size, !ok)
  {
    ghost var c := Whole(budget.disk);
    var target := directory + [METADATA];
    TreeIsPlace(budget.disk, directory, directory + [SNAPSHOT]);
    assert Parent(target) == directory;
    StandsApart(directory);
    BesideAdded(c, directory, directory + [SNAPSHOT], target, size);
    ok := WriteFile(budget.disk, target, size, now);
    assert ok ==> Whole(budget.disk) == Written(c, target, size);
  }

  /** The document is one newline longer on disk. It lies beside the snapshot; only a
      directory of its name could be in its way. */
  method WriteMetadata(budget: Budget, directory: Path, length: nat, m: Moment) returns (r: Result<nat, ArchiveError>)
    requires budget.disk.Tree() && budget.Keeping() && budget.keep == Some(directory)
    modifies budget`ready, budget`free, budget.disk
    ensures budget.disk.Tree() && budget.Keeping()
    ensures r == Err(Capacity) <==> old(IsRefused(budget, length + 1, m.now, m.held))
    ensures r == Err(Capacity) ==> old(TooFull(StateOf(budget), length + 1))
    ensures r != Err(Capacity) ==>
      r == if directory + [METADATA] in old(budget.disk.dirs) then Err(InTheWay) else Ok(length + 1)
    ensures At(Whole(budget.disk), directory + [SNAPSHOT]) == old(At(Whole(budget.disk), directory + [SNAPSHOT]))
    ensures r.Ok? ==> (Beside(Whole(budget.disk), directory, directory + [SNAPSHOT])
      == Written(old(Beside(Whole(budget.disk), directory, directory + [SNAPSHOT])), directory + [METADATA], length + 1))
    ensures StepsBy(old(StateOf(budget)), StateOf(budget), length + 1)
  {
    ghost var s, c := StateOf(budget), Whole(budget.disk);
    var reserved := Admit(budget, length + 1, m.now, m.held);
    ghost var mid := StateOf(budget);
    SameAt(c, Whole(budget.disk), directory, directory + [SNAPSHOT]);
    SameLength(c, Whole(budget.disk), directory, directory + [METADATA]);
    var written := false;
    if reserved {
      written := PutDocument(budget, directory, length + 1, m.now);
    }
    EntryLeads(s, mid, StateOf(budget), directory + [METADATA], length + 1, length + 1, reserved, !written,
      length + 1);
    r := if !reserved then Err(Capacity) else if written then Ok(length + 1) else Err(InTheWay);
  }

  /** An empty directory. */
  predicate IsFresh(c: Content, temporary: Path) {
    && At(c, temporary + [SNAPSHOT]) == EMPTY
    && Beside(c, temporary, temporary + [SNAPSHOT]) == Content(map[], {temporary})
  }

  /** The extraction and the metadata, into an empty kept directory. */
  method Populate(budget: Budget, temporary: Path, headers: seq<Header>, maxEntries: int, document: nat, moments: nat -> Moment)
    returns (r: Result<Stats, ArchiveError>)
    requires budget.disk.Tree() && budget.Keeping() && budget.keep == Some(temporary)
    requires IsFresh(Whole(budget.disk), temporary)
    modifies budget`ready, budget`free, budget.disk
    ensures budget.disk.Tree() && budget.Keeping()
    ensures r.Ok? ==> r.value == StatsFrom(Stats(0, 0, 0), headers)
    ensures Follows(r, Extracted(EMPTY, headers, maxEntries), At(Whole(budget.disk), temporary + [SNAPSHOT]),
      old(TooFull(StateOf(budget), Volume(headers) + document + 1)))
    ensures r.Ok? ==> (Beside(Whole(budget.disk), temporary, temporary + [SNAPSHOT])
      == Content(map[temporary + [METADATA] := document + 1], {temporary}))
    ensures Leads(old(StateOf(budget)), StateOf(budget))
  {
    ghost var s, d := StateOf(budget), temporary + [SNAPSHOT];
    r := ExtractArchive(budget, temporary + [SNAPSHOT], headers, maxEntries, moments);
    if r.Ok? {
      ghost var t := StateOf(budget);
      NotADirectory(Whole(budget.disk), temporary);
      var metadata := WriteMetadata(budget, temporary, document, moments(|headers|));
      LeadsOn(s, t, StateOf(budget));
      if metadata.Err? {
        r := Err(metadata.error);
      }
    }
  }

  lemma StandsApart(directory: Path)
    ensures !(directory + [SNAPSHOT] <= directory + [METADATA])
  {
    assert (directory + [METADATA])[|directory|] == METADATA && (directory + [SNAPSHOT])[|directory|] == SNAPSHOT;
  }

  lemma NotADirectory(c: Content, temporary: Path)
    requires Beside(c, temporary, temporary + [SNAPSHOT]).dirs == {temporary}
    ensures temporary + [METADATA] !in c.dirs
  {
    var p := temporary + [METADATA];
    StandsApart(temporary);
    assert p in c.dirs ==> p in Beside(c, temporary, temporary + [SNAPSHOT]).dirs;
  }

  lemma TwoPrefixes(p: Path)
    requires |p| == 2
    ensures Prefixes(p) == {[p[0]], p}
  {
    assert p[..1] == [p[0]] && p[..2] == p;
  }

  /** Files at the top are no entries, so none is ever evicted. */
  lemma TopFileStays(files: map<Path, nat>, dirs: map<Path, int>, gone: set<Path>, name: string)
    requires IsTree(files, dirs) && [name] in files && gone <= dirs.Keys
    ensures [name] in Outside(files, gone)
  {
    forall d | d in gone ensures !(d <= [name]) {
      ShortPrefix(d, name);
    }
  }

  lemma ShortPrefix(d: Path, name: string)
    ensures d <= [name] ==> d == [] || d == [name]
  {
  }

  /** Room is made, and the temporary directory, which is given a name that is not in use. */
  method MakeTemporary(budget: Budget, temporary: Path, m: Moment) returns (r: Result<nat, ArchiveError>)
    requires budget.disk.Tree() && |temporary| == 2 && temporary[0] == ".tmp" && !budget.disk.Present(temporary)
    modifies budget.disk
    ensures budget.disk.Tree() && Extends(old(budget.disk.history), budget.disk.history, 0)
    ensures GrewBy(old(StateOf(budget)), StateOf(budget), 0)
    ensures r == Err(Capacity) ==> old(TooFull(StateOf(budget), 1))
    ensures r != Err(Capacity) ==> r == if [".tmp"] in old(budget.disk.files) then Err(InTheWay) else Ok(0)
    ensures r != Err(Capacity) && budget.maxBytes > 0 ==> budget.disk.Used() < budget.maxBytes
    ensures r.Ok? ==> temporary in budget.disk.dirs && IsFresh(Whole(budget.disk), temporary)
    ensures r.Err? ==> At(Whole(budget.disk), temporary) == EMPTY
    ensures forall p | p in budget.disk.files :: p in old(budget.disk.files) && budget.disk.files[p] == old(budget.disk.files)[p]
  {
    budget.disk.NothingPresentBelow(temporary);
    TwoPrefixes(temporary);
    OutsideShrinks(budget.disk.files, MayGo(budget.disk.base, budget.disk.files, budget.disk.dirs,
      budget.ToRequest(0, m.now, m.held)));
    ghost var files, dirs := budget.disk.files, budget.disk.dirs;
    var made, removed := budget.MakeRoom(1, m.now, m.held);
    if [".tmp"] in files {
      TopFileStays(files, dirs, Paths(removed), ".tmp");
    }
    EmptyPlace(Whole(budget.disk), temporary);
    if !made {
      return Err(Capacity);
    }
    var parent := budget.disk.MkdirAll(temporary, m.now);
    if !parent {
      return Err(InTheWay);
    }
    FreshPlace(Whole(budget.disk), temporary, temporary + [SNAPSHOT]);
    r := Ok(0);
  }

  /** What remains of a failed extraction is removed. */
  method Discard(disk: Disk, temporary: Path)
    requires disk.Tree()
    modifies disk
    ensures disk.Tree() && At(Whole(disk), temporary) == EMPTY
    ensures disk.files == Outside(old(disk.files), {temporary}) && Extends(old(disk.history), disk.history, 0)
  {
    disk.RemoveAll(temporary);
    assert temporary in {temporary};
    EmptyPlace(Whole(disk), temporary);
  }

  method PopulateOrDiscard(budget: Budget, temporary: Path, headers: seq<Header>, maxEntries: int, document: nat,
      moments: nat -> Moment)
    returns (r: Result<Stats, ArchiveError>)
    requires budget.disk.Tree() && budget.Keeping() && budget.keep == Some(temporary) && !budget.ready
    requires IsFresh(Whole(budget.disk), temporary)
    modifies budget`ready, budget`free, budget.disk
    ensures budget.disk.Tree()
    ensures r.Ok? ==> r.value == StatsFrom(Stats(0, 0, 0), headers)
    ensures Follows(r, Extracted(EMPTY, headers, maxEntries), At(Whole(budget.disk), temporary + [SNAPSHOT]),
      old(TooFull(StateOf(budget), Volume(headers) + document + 1)))
    ensures r.Ok? ==> (Beside(Whole(budget.disk), temporary, temporary + [SNAPSHOT])
      == Content(map[temporary + [METADATA] := document + 1], {temporary}))
    ensures r.Err? ==> At(Whole(budget.disk), temporary) == EMPTY
    ensures StaysWithin(old(StateOf(budget)), StateOf(budget))
  {
    ghost var s := StateOf(budget);
    Recorded(budget);
    r := Populate(budget, temporary, headers, maxEntries, document, moments);
    ghost var t := StateOf(budget);
    Recorded(budget);
    Bounded(s, t);
    if r.Err? {
      Discard(budget.disk, temporary);
      DiscardedStaysWithin(s, t, StateOf(budget), temporary);
    }
  }

  /** Outside a directory there is nothing new. */
  ghost predicate OnlyEvicted(was: map<Path, nat>, now: map<Path, nat>, keep: Path) {
    forall p | p in now && !(keep <= p) :: p in was && now[p] == was[p]
  }

  /** With some room left at first, no change takes the disk beyond the limit; and
      outside the kept entry there is nothing new. */
  ghost predicate StaysWithin(s: State, u: State) {
    match s.keep
    case None => false
    case Some(keep) =>
      && OnlyEvicted(s.book.files, u.book.files, keep)
      && (0 < s.book.maxBytes && Bytes(s.book.files) < s.book.maxBytes ==>
        Extends(s.history, u.history, s.book.maxBytes) && Bytes(u.book.files) <= s.book.maxBytes)
  }

  predicate IsRecord(s: State) {
    s.history != [] && s.history[|s.history| - 1] == s.book.files
  }

  lemma Recorded(budget: Budget)
    requires budget.disk.Tree()
    ensures IsRecord(StateOf(budget))
  {
  }

  lemma Bounded(s: State, t: State)
    requires Leads(s, t) && s.keep.Some? && !s.book.ready && IsRecord(s) && IsRecord(t)
    ensures StaysWithin(s, t)
  {
    var limit := s.book.maxBytes;
    if 0 < limit && Bytes(s.book.files) < limit {
      ExtendsItself(s.history, 0);
      GrowsWithin(s.history, s.history, t.history, limit);
    }
  }

  lemma DiscardedStaysWithin(s: State, t: State, u: State, d: Path)
    requires StaysWithin(s, t) && u.book.files == Outside(t.book.files, {d}) && Extends(t.history, u.history, 0)
    ensures StaysWithin(s, u)
  {
    OutsideShrinks(t.book.files, {d});
    if 0 < s.book.maxBytes && Bytes(s.book.files) < s.book.maxBytes {
      ShrinksIsWithin(t.history, u.history, s.book.maxBytes);
      ExtendsOn(s.history, t.history, u.history, s.book.maxBytes);
    }
  }

  /** From making room to the moment before the rename, with a new budget. If it fails
      nothing is left of the temporary directory; if it succeeds it holds exactly the
      unwrapped archive and the metadata. Either way no change takes the disk beyond
      the limit, and elsewhere files are only evicted. */
  method Fill(budget: Budget, temporary: Path, headers: seq<Header>, maxEntries: int, document: nat,
      moments: nat -> Moment, start: Moment)
    returns (r: Result<Stats, ArchiveError>)
    requires budget.disk.Tree() && !budget.ready
    requires |temporary| == 2 && temporary[0] == ".tmp" && "snapshot-" <= temporary[1] && !budget.disk.Present(temporary)
    modifies budget, budget.disk
    ensures budget.disk.Tree()
    ensures r.Ok? ==> r.value == StatsFrom(Stats(0, 0, 0), headers)
    ensures Follows(r, if [".tmp"] in old(budget.disk.files) then Err(InTheWay) else Extracted(EMPTY, headers, maxEntries),
      At(Whole(budget.disk), temporary + [SNAPSHOT]), old(TooFull(StateOf(budget), Volume(headers) + document + 1)))
    ensures r.Ok? ==> (Beside(Whole(budget.disk), temporary, temporary + [SNAPSHOT])
      == Content(map[temporary + [METADATA] := document + 1], {temporary}))
    ensures r.Err? ==> At(Whole(budget.disk), temporary) == EMPTY
    ensures budget.maxBytes > 0 ==> Extends(old(budget.disk.history), budget.disk.history, budget.maxBytes)
    ensures budget.maxBytes > 0 && r != Err(Capacity) ==> budget.disk.Used() <= budget.maxBytes
    ensures OnlyEvicted(old(budget.disk.files), budget.disk.files, temporary)
  {
    ghost var first, s := budget.disk.history, StateOf(budget);
    ghost var growth: nat := Volume(headers) + document + 1;
    var made := MakeTemporary(budget, temporary, start);
    ghost var second := budget.disk.history;
    if made.Ok? {
      budget.keep := Some(temporary);
      FullBefore(s, StateOf(budget), growth);
      r := PopulateOrDiscard(budget, temporary, headers, maxEntries, document, moments);
    } else {
      r := Err(made.error);
    }
    ThenWithin(first, second, budget.disk.history, budget.maxBytes);
  }

  lemma FullBefore(s: State, t: State, growth: nat)
    requires GrewBy(s, t, 0) && t.book.maxBytes == s.book.maxBytes
    ensures TooFull(t, growth) ==> TooFull(s, growth)
  {
  }

  lemma ThenWithin(a: seq<map<Path, nat>>, b: seq<map<Path, nat>>, c: seq<map<Path, nat>>, maxBytes: int)
    requires Extends(a, b, 0)
    requires c == b || (maxBytes > 0 ==> Extends(b, c, maxBytes))
    ensures maxBytes > 0 ==> Extends(a, c, maxBytes)
  {
    if maxBytes > 0 {
      ShrinksIsWithin(a, b, maxBytes);
      if c != b {
        ExtendsOn(a, b, c, maxBytes);
      }
    }
  }
}
