/**
 Files written through the budget: Git files with their recorded sizes, the
 entries of an archive, and a snapshot's metadata. Each write is charged for
 the growth it can cause before it happens.
 */
module BudgetFiles {
  import opened Wrappers
  import opened DiskTree
  import opened Quota
  import opened DiskCache
  import opened Integers

  /******* One open file, as numbers *******/

  /** What the wrapper has recorded as the size, and what is really so. */
  datatype Fd = Fd(recorded: nat, length: nat, position: nat, append: bool)

  /** Where the wrapper takes a write to begin. */
  function Offset(f: Fd): nat {
    if f.append then Max(f.position, f.recorded) else f.position
  }

  /** What a write of len bytes is charged. */
  function Growth(f: Fd, len: nat): nat {
    Max(0, Offset(f) + len - f.recorded)
  }

  /** Writing n bytes: an append goes to the real end of the file; a write beyond
      the end leaves a hole; writing nothing changes nothing. The wrapper then
      updates what it has recorded. */
  function AfterWrite(f: Fd, n: nat): Fd {
    var begin := if f.append then f.length else f.position;
    f.(recorded := Max(f.recorded, Offset(f) + n),
       length := if n == 0 then f.length else Max(f.length, begin + n),
       position := if n == 0 then f.position else begin + n)
  }

  /** The charge for a write covers what it adds to the file, short writes
      included. */
  predicate Suffices(f: Fd, len: nat, n: nat) {
    AfterWrite(f, n).length <= f.length + Growth(f, len)
  }

  /** It does for every write exactly when the handle appends or the recorded size
      is not above the real one. */
  lemma ChargeCovers(f: Fd)
    ensures (forall len: nat, n: nat | n <= len :: Suffices(f, len, n)) <==> f.append || f.recorded <= f.length
  {
    if !f.append && f.recorded > f.length {
      assert !Suffices(f, f.length + 1, f.length + 1);
    }
  }

  /** A write leaves an accurate record accurate exactly when it does not begin
      beyond the end, or is an ordinary write of at least one byte. */
  lemma RecordStaysAccurate(f: Fd, n: nat)
    requires f.recorded == f.length
    ensures AfterWrite(f, n).recorded == AfterWrite(f, n).length
      <==> f.position <= f.recorded || (!f.append && n > 0)
  {
  }

  /** Never too low: an accurate record can only become too high. */
  lemma RecordErrsHigh(f: Fd, n: nat)
    requires f.recorded >= f.length
    ensures AfterWrite(f, n).recorded >= AfterWrite(f, n).length
  {
  }

  /******* Bytes that are paid for and not written *******/

  /** The part of the recorded size that is not there: it was charged when it was recorded. */
  function Prepaid(f: Fd): int {
    f.recorded - f.length
  }

  /** A write records no more than it is charged, and exactly that if the system
      accepts it whole. */
  lemma RecordsWhatIsCharged(f: Fd, len: nat, n: nat)
    requires n <= len
    ensures AfterWrite(f, n).recorded <= f.recorded + Growth(f, len)
    ensures AfterWrite(f, len).recorded == f.recorded + Growth(f, len)
  {
  }

  /** Every write for which there is room in hand stays within a limit exactly if
      the bytes in use, the room in hand and the prepaid bytes do so together.
      An appending handle writes at the real end and never into prepaid bytes. */
  lemma FundedWritesFit(f: Fd, used: nat, free: nat, limit: int)
    requires f.recorded >= f.length
    ensures
      (forall begin: nat, len: nat, n: nat | n <= len && Growth(f.(position := begin), len) <= free ::
        used + AfterWrite(f.(position := begin), n).length - f.length <= limit)
      <==> used + free + (if f.append then 0 else Prepaid(f)) <= limit
  {
    var len := if f.append then free else f.recorded + free;
    var g := f.(position := 0);
    assert Growth(g, len) <= free;
    assert AfterWrite(g, len).length - f.length == free + if f.append then 0 else Prepaid(f);
  }

  /** Measuring the disk again counts prepaid bytes as free. With a limit of 100, an
      empty write at offset 100 is charged 100; reserving one byte for another file
      then measures the disk, and the first file still takes 100 bytes uncharged. */
  lemma RemeasuringForgetsPrepaid(path: Path, other: Path, f: Fd, g: Fd, empty: map<Path, nat>)
    requires path != other && empty == map[path := 0, other := 0]
    requires f == Fd(0, 0, 100, false) && g == AfterWrite(f, 0).(position := 0)
    ensures Growth(f, 0) == 100 && g == Fd(100, 0, 0, false)
    ensures Reserved(Book(100, empty, true, 100), Book(100, empty, true, 0), Growth(f, 0), true)
    ensures Reserved(Book(100, empty, true, 0), Book(100, empty, true, 99), 1, true)
    ensures Growth(g, 100) == 0 && AfterWrite(g, 100).length == 100
    ensures Bytes(empty[path := 100][other := 1]) == 101
  {
    TwoFiles(path, 0, other, 0);
    TwoFiles(path, 100, other, 1);
    assert empty[path := 100][other := 1] == map[path := 100, other := 1];
    assert Outside(empty, {}) == empty;
  }

  lemma TwoFiles(path: Path, a: nat, other: Path, b: nat)
    requires path != other
    ensures Bytes(map[path := a, other := b]) == a + b
  {
    BytesUpdate(map[], path, a);
    BytesUpdate(map[path := a], other, b);
    assert map[path := a][other := b] == map[path := a, other := b];
    assert map[][path := a] == map[path := a];
  }

  /** The bytes in use, the room in hand, and what is prepaid for a file. */
  ghost function Balance(b: Book, f: Fd): int {
    Bytes(b.files) + b.free + Prepaid(f)
  }

  /** The limit is on, and reserving the growth would not measure the disk again. */
  predicate InHand(b: Book, growth: nat) {
    b.maxBytes > 0 && b.ready && growth <= b.free
  }

  /** A write that will not take the disk beyond the limit: either its charge covers
      it, or there is room in hand and the balance is within the limit. */
  ghost predicate WillFit(b: Book, f: Fd, len: nat) {
    b.maxBytes > 0 &&
    if f.append || f.recorded <= f.length then Backed(b)
    else InHand(b, Growth(f, len)) && Balance(b, f) <= b.maxBytes
  }

  /** Within the room in hand the balance never rises; a write that has the disk measured
      again adds to it the bytes that were prepaid, and just these if it is whole. */
  ghost predicate Balanced(b: Book, f: Fd, after: Book, len: nat, n: nat) {
    && (InHand(b, Growth(f, len)) ==> Balance(after, AfterWrite(f, n)) <= Balance(b, f))
    && (b.maxBytes > 0 && !InHand(b, Growth(f, len)) ==>
      && Balance(after, AfterWrite(f, n)) <= b.maxBytes + Prepaid(f)
      && (n == len ==> Balance(after, AfterWrite(f, n)) == b.maxBytes + Prepaid(f)))
  }

  lemma WritingKeepsBalance(b: Book, mid: Book, after: Book, path: Path, f: Fd, len: nat, n: nat)
    requires n <= len && path in mid.files && mid.files[path] == f.length
    requires Reserved(b, mid, Growth(f, len), true)
    requires after == mid.(files := mid.files[path := AfterWrite(f, n).length])
    ensures Balanced(b, f, after, len, n)
    ensures WillFit(b, f, len) ==> Bytes(after.files) <= b.maxBytes
  {
    RecordsWhatIsCharged(f, len, n);
    BytesUpdate(mid.files, path, AfterWrite(f, n).length);
    if f.append || f.recorded <= f.length {
      ChargeCovers(f);
      assert Suffices(f, len, n);
      if Backed(b) {
        ReservedKeepsBacked(b, mid, Growth(f, len), true);
      }
    } else {
      RecordErrsHigh(f, n);
    }
  }

  /** Any change that records no more than was charged keeps the balance. */
  lemma ChangeKeepsBalance(b: Book, mid: Book, after: Book, path: Path, f: Fd, g: Fd, growth: nat)
    requires path in mid.files && mid.files[path] == f.length && g.recorded <= f.recorded + growth
    requires Reserved(b, mid, growth, true)
    requires after == mid.(files := mid.files[path := g.length])
    ensures InHand(b, growth) ==> Balance(after, g) <= Balance(b, f)
  {
    BytesUpdate(mid.files, path, g.length);
  }

  /******* A run without measurements *******/

  datatype Session = Session(book: Book, file: Fd)

  /** Between two measurements: a write within the room in hand, a truncation, or a seek. */
  ghost predicate Moves(path: Path, s: Session, t: Session) {
    && path in s.book.files && s.book.files[path] == s.file.length
    && t.book.files == s.book.files[path := t.file.length]
    && ((exists len: nat, n: nat :: Writes(s, t, len, n)) || (exists length: nat :: Truncates(s, t, length))
      || t == s.(file := s.file.(position := t.file.position)))
  }

  ghost predicate Writes(s: Session, t: Session, len: nat, n: nat) {
    && n <= len && InHand(s.book, Growth(s.file, len))
    && t.file == AfterWrite(s.file, n)
    && t.book == s.book.(files := t.book.files, free := s.book.free - Growth(s.file, len))
  }

  ghost predicate Truncates(s: Session, t: Session, length: nat) {
    && InHand(s.book, Max(0, length - s.file.recorded))
    && t.file == s.file.(recorded := length, length := length)
    && t.book == s.book.(files := t.book.files, free := s.book.free - Max(0, length - s.file.recorded))
  }

  ghost predicate MovesAt(path: Path, run: seq<Session>, k: nat)
    requires 0 < k < |run|
  {
    Moves(path, run[k - 1], run[k])
  }

  /** While the disk is not measured again, no sequence of writes and truncations
      takes it beyond the limit, whatever the file has recorded too high. */
  lemma {:induction false} BalanceOverRuns(path: Path, run: seq<Session>, i: nat)
    requires i < |run| && (forall k | 0 < k < |run| :: MovesAt(path, run, k))
    requires run[0].book.free >= 0 && run[0].file.recorded >= run[0].file.length
    ensures run[i].book.free >= 0 && run[i].file.recorded >= run[i].file.length
    ensures Balance(run[i].book, run[i].file) <= Balance(run[0].book, run[0].file)
    ensures Bytes(run[i].book.files) <= Balance(run[0].book, run[0].file)
  {
    if i > 0 {
      BalanceOverRuns(path, run, i - 1);
      assert MovesAt(path, run, i);
      MoveKeepsBalance(path, run[i - 1], run[i]);
    }
  }

  lemma MoveKeepsBalance(path: Path, s: Session, t: Session)
    requires Moves(path, s, t) && s.book.free >= 0 && s.file.recorded >= s.file.length
    ensures t.book.free >= 0 && t.file.recorded >= t.file.length
    ensures Balance(t.book, t.file) <= Balance(s.book, s.file)
  {
    BytesUpdate(s.book.files, path, t.file.length);
    if len: nat, n: nat :| Writes(s, t, len, n) {
      RecordsWhatIsCharged(s.file, len, n);
      RecordErrsHigh(s.file, n);
    }
  }

  /******* The books *******/

  /** A change of one file's length within what was charged is a step of the books. */
  lemma ChangeIsStep(b: Book, mid: Book, after: Book, path: Path, length: nat, growth: nat)
    requires Reserved(b, mid, growth, true)
    requires after == mid.(files := mid.files[path := length])
    requires length <= (if path in mid.files then mid.files[path] else 0) + growth
    ensures Step(b, after)
  {
    BytesUpdate(mid.files, path, length);
    assert Spends(mid, after, growth);
    assert Charged(b, after, growth);
  }

  /** So is a reservation that is refused, or not used. */
  lemma ReservationIsStep(b: Book, mid: Book, growth: nat, ok: bool)
    requires Reserved(b, mid, growth, ok)
    ensures Step(b, mid)
  {
    if ok {
      assert Spends(mid, mid, growth);
      assert Charged(b, mid, growth);
    }
  }

  /******* The wrapper *******/

  class BudgetFile {
    const budget: Budget
    const path: Path
    const appendMode: bool
    var size: nat
    var position: nat

    constructor (budget: Budget, path: Path, appendMode: bool, size: nat)
      ensures this.budget == budget && this.path == path && this.appendMode == appendMode
      ensures this.size == size && position == 0
    {
      this.budget, this.path, this.appendMode := budget, path, appendMode;
      this.size, position := size, 0;
    }

    /** The file lies in the entry that its writer keeps. */
    predicate Open()
      reads this, budget, budget.disk
    {
      path in budget.disk.files && budget.Keeping() && budget.keep.value <= path
    }

    function State(): Fd
      requires Open()
      reads this, budget, budget.disk
    {
      Fd(size, budget.disk.files[path], position, appendMode)
    }

    /** Nothing but this file has changed among those the writer keeps. */
    twostate predicate OthersKept()
      reads this, budget, budget.disk
    {
      old(budget.Keeping()) ==> forall p | p in old(budget.disk.files) && old(budget.keep.value) <= p && p != path ::
        p in budget.disk.files && budget.disk.files[p] == old(budget.disk.files[p])
    }

    /** The write of the wrapped file: the system accepts n bytes. */
    method FileWrite(n: nat)
      requires budget.disk.Tree() && Open()
      modifies this`position, budget.disk`files, budget.disk`history
      ensures budget.disk.Tree() && Open()
      ensures position == AfterWrite(old(State()), n).position
      ensures budget.disk.files == old(budget.disk.files)[path := AfterWrite(old(State()), n).length]
      ensures budget.disk.history == old(budget.disk.history) + if n == 0 then [] else [budget.disk.files]
    {
      if n > 0 {
        var length := budget.disk.files[path];
        var begin := if appendMode then length else position;
        budget.disk.SetFile(path, Max(length, begin + n));
        position := begin + n;
      }
    }

    method FileTruncate(length: nat)
      requires budget.disk.Tree() && Open()
      modifies budget.disk`files, budget.disk`history
      ensures budget.disk.Tree() && Open() && State() == old(State()).(length := length)
      ensures budget.disk.files == old(budget.disk.files)[path := length]
    {
      budget.disk.SetFile(path, length);
    }

    /** Reserving may evict other entries, but nothing beside this file. */
    method Charge(growth: nat, now: int, held: set<Path>) returns (ok: bool)
      requires budget.disk.Tree() && Open()
      modifies budget`ready, budget`free, budget.disk
      ensures budget.disk.Tree() && Open() && OthersKept() && State() == old(State())
      ensures budget.maxBytes > 0 ==>
        (ok <==> old(InHand(budget.Books(), growth)) || old(budget.Unfreeable(now, held)) + growth <= budget.maxBytes)
      ensures Reserved(old(budget.Books()), budget.Books(), growth, ok)
      ensures Extends(old(budget.disk.history), budget.disk.history, 0)
    {
      ok := budget.Reserve(growth, now, held);
    }

    /** n is how much of the data the system accepts, once room is reserved. */
    method Write(len: nat, n: nat, now: int, held: set<Path>) returns (ok: bool)
      requires budget.disk.Tree() && Open() && n <= len
      modifies this`size, this`position, budget`ready, budget`free, budget.disk
      ensures budget.disk.Tree() && Open() && OthersKept()
      ensures State() == if ok then AfterWrite(old(State()), n) else old(State())
      ensures budget.maxBytes > 0 ==> (ok <==>
        || old(InHand(budget.Books(), Growth(State(), len)))
        || old(budget.Unfreeable(now, held) + Growth(State(), len)) <= budget.maxBytes)
      ensures ok ==> Balanced(old(budget.Books()), old(State()), budget.Books(), len, n)
      ensures old(appendMode || size <= budget.disk.files[path]) ==> Step(old(budget.Books()), budget.Books())
      ensures old(WillFit(budget.Books(), State(), len)) ==>
        Extends(old(budget.disk.history), budget.disk.history, budget.maxBytes)
    {
      ghost var before, f, first := budget.Books(), State(), budget.disk.history;
      var offset := position;
      if appendMode {
        offset := Max(offset, size);
      }
      var growth := Max(0, offset + len - size);
      ok := Charge(growth, now, held);
      if !ok {
        if WillFit(before, f, len) {
          ShrinksIsWithin(first, budget.disk.history, budget.maxBytes);
        }
        return;
      }
      Put(len, n, before, f, first);
    }

    /** The write behind its reservation. */
    method Put(len: nat, n: nat, ghost before: Book, ghost f: Fd, ghost first: seq<map<Path, nat>>)
      requires budget.disk.Tree() && Open() && n <= len && f == State()
      requires Reserved(before, budget.Books(), Growth(f, len), true)
      requires path in before.files && before.files[path] == f.length
      requires Extends(first, budget.disk.history, 0)
      modifies this`size, this`position, budget.disk`files, budget.disk`history
      ensures budget.disk.Tree() && Open() && State() == AfterWrite(f, n)
      ensures budget.disk.files == old(budget.disk.files)[path := AfterWrite(f, n).length]
      ensures Balanced(before, f, budget.Books(), len, n)
      ensures f.append || f.recorded <= f.length ==> Step(before, budget.Books())
      ensures WillFit(before, f, len) ==> Extends(first, budget.disk.history, budget.maxBytes)
    {
      ghost var mid, history := budget.Books(), budget.disk.history;
      var offset := if appendMode then Max(position, size) else position;
      FileWrite(n);
      size := Max(size, offset + n);
      WritingKeepsBalance(before, mid, budget.Books(), path, f, len, n);
      if f.append || f.recorded <= f.length {
        ChargeCovers(f);
        assert Suffices(f, len, n);
        ChangeIsStep(before, mid, budget.Books(), path, AfterWrite(f, n).length, Growth(f, len));
      }
      assert n == 0 ==> budget.disk.history == history;
      if WillFit(before, f, len) {
        ShrinksThenGrows(first, history, budget.disk.files, budget.maxBytes);
      }
    }

    /** Setting the size also puts an inaccurate record right. */
    method Truncate(length: nat, fails: bool, now: int, held: set<Path>) returns (ok: bool)
      requires budget.disk.Tree() && Open()
      modifies this`size, budget`ready, budget`free, budget.disk
      ensures budget.disk.Tree() && Open() && OthersKept()
      ensures State() == if ok then old(State()).(recorded := length, length := length) else old(State())
      ensures budget.maxBytes > 0 && !fails ==> (ok <==>
        || old(InHand(budget.Books(), Max(0, length - size)))
        || old(budget.Unfreeable(now, held)) + Max(0, length - old(size)) <= budget.maxBytes)
      ensures old(InHand(budget.Books(), Max(0, length - size))) ==>
        Balance(budget.Books(), State()) <= old(Balance(budget.Books(), State()))
      ensures old(size <= budget.disk.files[path]) ==> Step(old(budget.Books()), budget.Books())
    {
      ghost var before, f := budget.Books(), State();
      var growth := Max(0, length - size);
      ok := Charge(growth, now, held);
      if !ok {
        return;
      }
      ghost var mid := budget.Books();
      ok := !fails;
      if ok {
        FileTruncate(length);
        size := length;
      }
      ghost var g := if ok then f.(recorded := length, length := length) else f;
      assert State() == g && budget.disk.files == mid.files[path := g.length];
      ChangeKeepsBalance(before, mid, budget.Books(), path, f, g, growth);
      if f.recorded <= f.length {
        ChangeIsStep(before, mid, budget.Books(), path, g.length, growth);
      }
    }
  }

  /******* Opening files *******/

  /** The files once one of them is open: created or truncated if need be. */
  function Opened(files: map<Path, nat>, path: Path, truncate: bool): map<Path, nat> {
    files[path := if truncate || path !in files then 0 else files[path]]
  }

  /** A directory, a missing file that is not to be created, and one whose parent cannot
      be made because a file is in the way. */
  predicate CannotOpen(disk: Disk, path: Path, create: bool)
    requires path != []
    reads disk
  {
    || path in disk.dirs
    || (path !in disk.files && (!create || !(disk.files.Keys !! Prefixes(path[..|path| - 1]))))
  }

  /** OpenFile of the wrapped file system, below the kept entry. Truncating frees bytes
      that are not credited until the next measurement. */
  method OpenFile(budget: Budget, path: Path, create: bool, truncate: bool, append: bool, now: int)
    returns (f: Option<BudgetFile>)
    requires budget.disk.Tree() && budget.Keeping() && budget.keep.value < path
    modifies budget.disk
    ensures budget.disk.Tree() && budget.Keeping()
    ensures f.None? <==> old(CannotOpen(budget.disk, path, create))
    ensures f.Some? ==> fresh(f.value) && f.value.budget == budget && f.value.path == path && f.value.Open()
    ensures f.Some? ==> f.value.State() == Fd(budget.disk.files[path], budget.disk.files[path], 0, append)
    ensures f.Some? ==> budget.disk.files == Opened(old(budget.disk.files), path, truncate)
    ensures f.Some? ==> budget.disk.dirs.Keys == old(budget.disk.dirs.Keys) + Prefixes(path[..|path| - 1])
    ensures f.None? ==> budget.disk.files == old(budget.disk.files) && budget.disk.dirs == old(budget.disk.dirs)
    ensures Step(old(budget.Books()), budget.Books())
    ensures Extends(old(budget.disk.history), budget.disk.history, 0)
  {
    ghost var before, first := budget.Books(), budget.disk.history;
    var parent := path[..|path| - 1];
    ParentPrefixes(path);
    ExtendsItself(first, 0);
    if path in budget.disk.dirs || (path !in budget.disk.files && !create) {
      assert Spends(before, budget.Books(), 0);
      return None;
    }
    if path !in budget.disk.files {
      var made := budget.disk.MkdirAll(parent, now);
      if !made {
        assert Spends(before, budget.Books(), 0);
        return None;
      }
    }
    var size := if truncate || path !in budget.disk.files then 0 else budget.disk.files[path];
    budget.disk.SetFile(path, size);
    OpeningAddsNothing(before.files, path, truncate);
    ExtendsOne(first, budget.disk.files, 0);
    assert Spends(before, budget.Books(), 0);
    var file := new BudgetFile(budget, path, append, size);
    f := Some(file);
  }

  lemma OpeningAddsNothing(files: map<Path, nat>, path: Path, truncate: bool)
    ensures Bytes(Opened(files, path, truncate)) <= Bytes(files)
  {
    BytesUpdate(files, path, Opened(files, path, truncate)[path]);
  }

  /** The proper prefixes of a path are the prefixes of its parent. */
  lemma ParentPrefixes(path: Path)
    requires path != []
    ensures Prefixes(path[..|path| - 1]) == set i | 0 < i < |path| :: path[..i]
  {
    var parent := path[..|path| - 1];
    forall i | 0 < i < |path| ensures path[..i] in Prefixes(parent) {
      assert path[..i] == parent[..i];
    }
    forall q | q in Prefixes(parent) ensures q == path[..|q|] && 0 < |q| < |path| {
      var i :| 0 < i <= |parent| && q == parent[..i];
    }
  }
}
