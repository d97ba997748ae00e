/**
 The lock protocol of the shared disk cache, as a step machine.

 One user root is shared by any number of concurrent calls ("processes" below).
 A process runs Manager.Ensure, PullEngine.DiffPull or diskcache.RemoveTree.
 There is one writer lock, and one shared/exclusive lock per cache entry.
 Every TryLock, Close, stat, rename and directory removal is one atomic step,
 and the downgrade of an exclusive lock (Lock.Share) is two: drop, then take.
 */
module CacheProtocol {
  import opened Wrappers

  /** A cache entry below the user root: a commit directory, an extraction
      directory under .tmp, or a bare Git repository under .pull. */
  datatype Path = Commit(key: nat) | Temporary(name: nat) | Repository(repo: nat)

  datatype Content = Absent | Partial | Complete

  /** What a directory holds. The stamp tells one extraction from another. */
  datatype Dir = Dir(content: Content, metadata: bool, stamp: nat)

  datatype Scope = WholeRoot | PullOnly

  datatype Stage = Unpacking | Unpacked | Described

  /** Where a process is. `held` is the entry that MakeRoom has locked for eviction. */
  datatype Pc =
    | Idle
      // Ensure
    | WantProbe(key: nat)
    | Probing(key: nat)
    | ProbeMissed(key: nat)
    | WantWriter(key: nat)
    | WantRecheck(key: nat)
    | Rechecking(key: nat)
    | RecheckMissed(key: nat)
    | WantExclusive(key: nat)
    | Checking(key: nat)
    | Making(key: nat, held: Option<Path>)
    | Extracting(key: nat, name: nat, stage: Stage, held: Option<Path>)
    | Sharing(key: nat, hit: bool)
    | Retaking(key: nat, hit: bool)
    | Returning(key: nat, hit: bool)
    | Failing(key: nat, temporary: Option<nat>, locked: bool)
    | Reading(key: nat, hit: bool)
      // DiffPull
    | DiffWantWriter(repo: nat)
    | DiffWantEntry(repo: nat)
    | Diffing(repo: nat, held: Option<Path>)
    | DiffClosing(repo: nat)
    | ClosingWriter
      // RemoveTree
    | CleanWantWriter(scope: Scope)
    | CleanListing(scope: Scope)
    | Cleaning(scope: Scope, todo: set<Path>, locks: set<Path>)
    | CleanRemoving(scope: Scope, locks: set<Path>)
    | CleanClosing(locks: set<Path>)

  datatype State = State(
    pcs: map<nat, Pc>,
    writer: Option<nat>,
    exclusive: map<Path, nat>,
    shared: set<(Path, nat)>,
    disk: map<Path, Dir>,
    stamps: nat)

  datatype Action =
    | Start(call: Pc)
    | Acquire
    | Fail
    | Stat
    | CloseEntry
    | CloseLock(path: Path)
    | CloseWriter
    | Sweep(name: nat)
    | TryEvict(path: Path)
    | Remove(path: Path)
    | CreateTemporary
    | UnpackSome
    | Unpack
    | Describe
    | Publish
    | DropForShare
    | Release
    | WriteRepository
    | FinishDiff
    | List
    | TryClean(path: Path)
    | BeginRemove
    | EndRemove

  function PcOf(s: State, p: nat): Pc {
    if p in s.pcs then s.pcs[p] else Idle
  }

  /** The locks that go with a program counter. */
  predicate HoldsWriter(pc: Pc) {
    pc.WantRecheck? || pc.Rechecking? || pc.RecheckMissed? || pc.WantExclusive? || pc.Checking? ||
    pc.Making? || pc.Extracting? || pc.Sharing? || pc.Retaking? || pc.Returning? || pc.Failing? ||
    pc.DiffWantEntry? || pc.Diffing? || pc.DiffClosing? || pc.ClosingWriter? ||
    pc.CleanListing? || pc.Cleaning? || pc.CleanRemoving? || pc.CleanClosing?
  }

  function HeldSet(held: Option<Path>): set<Path> {
    match held
    case None => {}
    case Some(path) => {path}
  }

  function ExclusiveOf(pc: Pc): set<Path> {
    match pc
    case Checking(k) => {Commit(k)}
    case Making(k, held) => {Commit(k)} + HeldSet(held)
    case Extracting(k, _, _, held) => {Commit(k)} + HeldSet(held)
    case Sharing(k, _) => {Commit(k)}
    case Failing(k, _, locked) => if locked then {Commit(k)} else {}
    case Diffing(r, held) => {Repository(r)} + HeldSet(held)
    case DiffClosing(r) => {Repository(r)}
    case Cleaning(_, _, locks) => locks
    case CleanRemoving(_, locks) => locks
    case CleanClosing(locks) => locks
    case _ => {}
  }

  function SharedOf(pc: Pc): set<Path> {
    match pc
    case Probing(k) => {Commit(k)}
    case ProbeMissed(k) => {Commit(k)}
    case Rechecking(k) => {Commit(k)}
    case RecheckMissed(k) => {Commit(k)}
    case Returning(k, _) => {Commit(k)}
    case Reading(k, _) => {Commit(k)}
    case _ => {}
  }

  /** The lock a process is waiting for, if it is waiting. */
  datatype Want = Nothing | TheWriter | SharedOn(path: Path) | ExclusiveOn(path: Path)

  function WantOf(pc: Pc): Want {
    match pc
    case WantProbe(k) => SharedOn(Commit(k))
    case WantWriter(_) => TheWriter
    case WantRecheck(k) => SharedOn(Commit(k))
    case WantExclusive(k) => ExclusiveOn(Commit(k))
    case Retaking(k, _) => SharedOn(Commit(k))
    case DiffWantWriter(_) => TheWriter
    case DiffWantEntry(r) => ExclusiveOn(Repository(r))
    case CleanWantWriter(_) => TheWriter
    case _ => Nothing
  }

  predicate ExclusiveFree(s: State, path: Path) {
    path !in s.exclusive && forall pair | pair in s.shared :: pair.0 != path
  }

  predicate InScope(scope: Scope, path: Path) {
    scope.WholeRoot? || path.Repository?
  }

  /** Budget.entries: extraction directories, repositories, and the commit
      directories that hold a metadata.json. */
  function Listed(s: State): set<Path> {
    set path | path in s.disk && (path.Commit? ==> s.disk[path].metadata)
  }

  // What os.Stat(final) sees: the snapshot/ directory inside a commit directory.
  predicate Hit(s: State, key: nat) {
    Commit(key) in s.disk && !s.disk[Commit(key)].content.Absent?
  }

  /** Only process p has moved. */
  ghost predicate OthersStay(s: State, p: nat, s': State) {
    forall q: nat {:trigger PcOf(s', q)} {:trigger PcOf(s, q)} :: q != p ==> PcOf(s', q) == PcOf(s, q)
  }

  function Move(s: State, p: nat, pc: Pc): State {
    s.(pcs := s.pcs[p := pc])
  }

  function TakeExclusive(s: State, p: nat, path: Path): State {
    s.(exclusive := s.exclusive[path := p])
  }

  function DropExclusive(s: State, path: Path): State {
    s.(exclusive := s.exclusive - {path})
  }

  function TakeShared(s: State, p: nat, path: Path): State {
    s.(shared := s.shared + {(path, p)})
  }

  function DropShared(s: State, p: nat, path: Path): State {
    s.(shared := s.shared - {(path, p)})
  }

  /** Acquire and Lock.Share's second half: the lock is granted when it is free. */
  function AcquireStep(s: State, p: nat): (r: Option<State>)
    ensures r.Some? ==> OthersStay(s, p, r.value)
  {
    match PcOf(s, p)
    case WantProbe(k) =>
      if Commit(k) in s.exclusive then None else Some(Move(TakeShared(s, p, Commit(k)), p, Probing(k)))
    case WantWriter(k) =>
      if s.writer.Some? then None else Some(Move(s.(writer := Some(p)), p, WantRecheck(k)))
    case WantRecheck(k) =>
      if Commit(k) in s.exclusive then None else Some(Move(TakeShared(s, p, Commit(k)), p, Rechecking(k)))
    case WantExclusive(k) =>
      if !ExclusiveFree(s, Commit(k)) then None else Some(Move(TakeExclusive(s, p, Commit(k)), p, Checking(k)))
    case Retaking(k, hit) =>
      if Commit(k) in s.exclusive then None else Some(Move(TakeShared(s, p, Commit(k)), p, Returning(k, hit)))
    case DiffWantWriter(r) =>
      if s.writer.Some? then None else Some(Move(s.(writer := Some(p)), p, DiffWantEntry(r)))
    case DiffWantEntry(r) =>
      if !ExclusiveFree(s, Repository(r)) then None
      else Some(Move(TakeExclusive(s, p, Repository(r)), p, Diffing(r, None)))
    case CleanWantWriter(scope) =>
      if s.writer.Some? then None else Some(Move(s.(writer := Some(p)), p, CleanListing(scope)))
    case _ => None
  }

  /** An error return: the context ends while waiting, or the work itself fails.
      The deferred calls then run in their own steps. */
  function FailStep(s: State, p: nat): (r: Option<State>)
    ensures r.Some? ==> OthersStay(s, p, r.value)
  {
    match PcOf(s, p)
    case WantProbe(_) => Some(Move(s, p, Idle))
    case WantWriter(_) => Some(Move(s, p, Idle))
    case WantRecheck(k) => Some(Move(s, p, Failing(k, None, false)))
    case WantExclusive(k) => Some(Move(s, p, Failing(k, None, false)))
    case Making(k, None) => Some(Move(s, p, Failing(k, None, true)))
    case Extracting(k, t, _, None) => Some(Move(s, p, Failing(k, Some(t), true)))
    case Sharing(k, _) => Some(Move(s, p, Failing(k, None, true)))
    case Retaking(k, _) => Some(Move(s, p, Failing(k, None, false)))
    case DiffWantWriter(_) => Some(Move(s, p, Idle))
    case DiffWantEntry(_) => Some(Move(s, p, ClosingWriter))
    case CleanWantWriter(_) => Some(Move(s, p, Idle))
    case CleanListing(_) => Some(Move(s, p, CleanClosing({})))
    case Cleaning(_, _, locks) => Some(Move(s, p, CleanClosing(locks)))
    case CleanRemoving(_, locks) => Some(Move(s, p, CleanClosing(locks)))
    case _ => None
  }

  /** os.Stat(final), at its three places in Ensure. */
  function StatStep(s: State, p: nat): (r: Option<State>)
    ensures r.Some? ==> OthersStay(s, p, r.value)
  {
    match PcOf(s, p)
    case Probing(k) => Some(Move(s, p, if Hit(s, k) then Reading(k, true) else ProbeMissed(k)))
    case Rechecking(k) => Some(Move(s, p, if Hit(s, k) then Returning(k, true) else RecheckMissed(k)))
    case Checking(k) => Some(Move(s, p, if Hit(s, k) then Sharing(k, true) else Making(k, None)))
    case _ => None
  }

  function CloseEntryStep(s: State, p: nat): (r: Option<State>)
    ensures r.Some? ==> OthersStay(s, p, r.value)
  {
    match PcOf(s, p)
    case ProbeMissed(k) => Some(Move(DropShared(s, p, Commit(k)), p, WantWriter(k)))
    case RecheckMissed(k) => Some(Move(DropShared(s, p, Commit(k)), p, WantExclusive(k)))
    case Failing(k, None, true) => Some(Move(DropExclusive(s, Commit(k)), p, Failing(k, None, false)))
    case DiffClosing(r) => Some(Move(DropExclusive(s, Repository(r)), p, ClosingWriter))
    case _ => None
  }

  function CloseLockStep(s: State, p: nat, path: Path): (r: Option<State>)
    ensures r.Some? ==> OthersStay(s, p, r.value)
  {
    match PcOf(s, p)
    case Making(k, Some(h)) =>
      if h == path then Some(Move(DropExclusive(s, path), p, Making(k, None))) else None
    case Extracting(k, t, stage, Some(h)) =>
      if h == path then Some(Move(DropExclusive(s, path), p, Extracting(k, t, stage, None))) else None
    case Diffing(r, Some(h)) =>
      if h == path then Some(Move(DropExclusive(s, path), p, Diffing(r, None))) else None
    case CleanClosing(locks) =>
      if path in locks then Some(Move(DropExclusive(s, path), p, CleanClosing(locks - {path}))) else None
    case _ => None
  }

  /** The outermost deferred call. Ensure's result is in the caller's hands only after it. */
  function CloseWriterStep(s: State, p: nat): (r: Option<State>)
    ensures r.Some? ==> OthersStay(s, p, r.value)
  {
    match PcOf(s, p)
    case Returning(k, hit) => Some(Move(s.(writer := None), p, Reading(k, hit)))
    case Failing(_, None, false) => Some(Move(s.(writer := None), p, Idle))
    case ClosingWriter => Some(Move(s.(writer := None), p, Idle))
    case CleanClosing(locks) => if locks == {} then Some(Move(s.(writer := None), p, Idle)) else None
    case _ => None
  }

  /** One iteration of MakeRoom that gets its lock. Keep is the process's own extraction. */
  function TryEvictStep(s: State, p: nat, path: Path): (r: Option<State>)
    ensures r.Some? ==> OthersStay(s, p, r.value)
  {
    if path !in Listed(s) || !ExclusiveFree(s, path) then None
    else match PcOf(s, p)
      case Making(k, None) => Some(Move(TakeExclusive(s, p, path), p, Making(k, Some(path))))
      case Extracting(k, t, stage, None) =>
        if path == Temporary(t) then None
        else Some(Move(TakeExclusive(s, p, path), p, Extracting(k, t, stage, Some(path))))
      case Diffing(r, None) =>
        if path == Repository(r) then None
        else Some(Move(TakeExclusive(s, p, path), p, Diffing(r, Some(path))))
      case _ => None
  }

  /** os.RemoveAll, at its places in MakeRoom, Ensure's defer, DiffPull and RemoveTree. */
  function RemoveStep(s: State, p: nat, path: Path): (r: Option<State>)
    ensures r.Some? ==> OthersStay(s, p, r.value)
  {
    var gone := s.(disk := s.disk - {path});
    match PcOf(s, p)
    case Making(_, held) => if held == Some(path) then Some(gone) else None
    case Extracting(_, _, _, held) => if held == Some(path) then Some(gone) else None
    case Diffing(r, held) => if held == Some(path) || path == Repository(r) then Some(gone) else None
    case Failing(k, Some(t), locked) =>
      if path == Temporary(t) then Some(Move(gone, p, Failing(k, None, locked))) else None
    case CleanRemoving(scope, _) => if path in s.disk && InScope(scope, path) then Some(gone) else None
    case _ => None
  }

  /** os.Rename onto the commit directory fails when something is already there. */
  function PublishStep(s: State, p: nat): (r: Option<State>)
    ensures r.Some? ==> OthersStay(s, p, r.value)
  {
    match PcOf(s, p)
    case Extracting(k, t, Described, None) =>
      if Commit(k) in s.disk || Temporary(t) !in s.disk then Some(Move(s, p, Failing(k, Some(t), true)))
      else
        var published := (s.disk - {Temporary(t)})[Commit(k) := s.disk[Temporary(t)]];
        Some(Move(s.(disk := published), p, Sharing(k, false)))
    case _ => None
  }

  function ExtractStep(s: State, p: nat, a: Action): (r: Option<State>)
    ensures r.Some? ==> OthersStay(s, p, r.value)
  {
    match (a, PcOf(s, p))
    case (CreateTemporary, Making(k, None)) =>
      var created := s.disk[Temporary(s.stamps) := Dir(Absent, false, s.stamps)];
      Some(Move(s.(disk := created, stamps := s.stamps + 1), p, Extracting(k, s.stamps, Unpacking, None)))
    case (UnpackSome, Extracting(k, t, Unpacking, None)) =>
      if Temporary(t) !in s.disk then None
      else Some(s.(disk := s.disk[Temporary(t) := s.disk[Temporary(t)].(content := Partial)]))
    case (Unpack, Extracting(k, t, Unpacking, None)) =>
      if Temporary(t) !in s.disk then None
      else
        var full := s.disk[Temporary(t) := s.disk[Temporary(t)].(content := Complete)];
        Some(Move(s.(disk := full), p, Extracting(k, t, Unpacked, None)))
    case (Describe, Extracting(k, t, Unpacked, None)) =>
      if Temporary(t) !in s.disk then None
      else
        var full := s.disk[Temporary(t) := s.disk[Temporary(t)].(metadata := true)];
        Some(Move(s.(disk := full), p, Extracting(k, t, Described, None)))
    case _ => None
  }

  function CleanStep(s: State, p: nat, a: Action): (r: Option<State>)
    ensures r.Some? ==> OthersStay(s, p, r.value)
  {
    match (a, PcOf(s, p))
    case (List, CleanListing(scope)) =>
      Some(Move(s, p, Cleaning(scope, set path | path in Listed(s) && InScope(scope, path), {})))
    case (TryClean(path), Cleaning(scope, todo, locks)) =>
      if path !in todo then None
      else if !ExclusiveFree(s, path) then Some(Move(s, p, CleanClosing(locks)))
      else Some(Move(TakeExclusive(s, p, path), p, Cleaning(scope, todo - {path}, locks + {path})))
    case (BeginRemove, Cleaning(scope, todo, locks)) =>
      if todo == {} then Some(Move(s, p, CleanRemoving(scope, locks))) else None
    case (EndRemove, CleanRemoving(scope, locks)) =>
      if forall path | path in s.disk :: !InScope(scope, path)
      then Some(Move(s, p, CleanClosing(locks))) else None
    case _ => None
  }

  function Step(s: State, p: nat, a: Action): (r: Option<State>)
    ensures r.Some? ==> OthersStay(s, p, r.value)
  {
    var pc := PcOf(s, p);
    match a
    case Start(call) =>
      if pc.Idle? && (call.WantProbe? || call.DiffWantWriter? || call.CleanWantWriter?)
      then Some(Move(s, p, call)) else None
    case Acquire => AcquireStep(s, p)
    case Fail => FailStep(s, p)
    case Stat => StatStep(s, p)
    case CloseEntry => CloseEntryStep(s, p)
    case CloseLock(path) => CloseLockStep(s, p, path)
    case CloseWriter => CloseWriterStep(s, p)
    case Sweep(name) =>
      // sweepStaleTemporaries takes no entry lock; the writer lock alone protects it.
      if pc.Making? then Some(s.(disk := s.disk - {Temporary(name)})) else None
    case TryEvict(path) => TryEvictStep(s, p, path)
    case Remove(path) => RemoveStep(s, p, path)
    case Publish => PublishStep(s, p)
    case DropForShare =>
      if pc.Sharing? then Some(Move(DropExclusive(s, Commit(pc.key)), p, Retaking(pc.key, pc.hit))) else None
    case Release =>
      if pc.Reading? then Some(Move(DropShared(s, p, Commit(pc.key)), p, Idle)) else None
    case WriteRepository =>
      if pc.Diffing? then
        Some(s.(disk := s.disk[Repository(pc.repo) := Dir(Complete, false, s.stamps)], stamps := s.stamps + 1))
      else None
    case FinishDiff =>
      if pc.Diffing? && pc.held.None? then Some(Move(s, p, DiffClosing(pc.repo))) else None
    case _ =>
      if a.List? || a.TryClean? || a.BeginRemove? || a.EndRemove? then CleanStep(s, p, a) else ExtractStep(s, p, a)
  }

  /** The operating system ends some processes: their locks go at once, the disk stays. */
  function Crash(s: State, dead: set<nat>): State {
    State(
      (map p | p in s.pcs :: if p in dead then Idle else s.pcs[p]),
      if s.writer.Some? && s.writer.value in dead then None else s.writer,
      (map path | path in s.exclusive && s.exclusive[path] !in dead :: s.exclusive[path]),
      (set pair | pair in s.shared && pair.1 !in dead),
      s.disk,
      s.stamps)
  }

  ghost predicate Next(s: State, s': State) {
    || (exists p: nat, a :: Step(s, p, a) == Some(s'))
    || (exists dead: set<nat> :: s' == Crash(s, dead))
  }

  /** A fresh start: no process and no lock; the disk may hold what earlier
      processes published, and the extractions they left behind. */
  ghost predicate Init(s: State) {
    && s.pcs == map[]
    && s.writer.None?
    && s.exclusive == map[]
    && s.shared == {}
    && DiskOk(s)
  }

  ghost predicate Linked(states: seq<State>, i: nat)
    requires 0 < i < |states|
  {
    Next(states[i - 1], states[i])
  }

  ghost predicate Run(states: seq<State>) {
    && |states| > 0
    && Init(states[0])
    && forall i | 0 < i < |states| :: Linked(states, i)
  }

  /******* The invariant *******/

  /** A commit directory is absent, or complete with metadata. */
  ghost predicate DiskOk(s: State) {
    && (forall path | path in s.disk && path.Commit? ::
         s.disk[path].content.Complete? && s.disk[path].metadata)
    && (forall path | path in s.disk && path.Temporary? :: path.name < s.stamps)
  }

  predicate HoldsExclusive(s: State, p: nat, path: Path) {
    path in ExclusiveOf(PcOf(s, p))
  }

  predicate HoldsShared(s: State, p: nat, path: Path) {
    path in SharedOf(PcOf(s, p))
  }

  ghost predicate WriterTable(s: State) {
    forall p: nat {:trigger PcOf(s, p)} :: HoldsWriter(PcOf(s, p)) <==> s.writer == Some(p)
  }

  ghost predicate ExclusiveTable(s: State) {
    forall p: nat, path {:trigger HoldsExclusive(s, p, path)} ::
      HoldsExclusive(s, p, path) <==> (path in s.exclusive && s.exclusive[path] == p)
  }

  ghost predicate SharedTable(s: State) {
    forall p: nat, path {:trigger HoldsShared(s, p, path)} ::
      HoldsShared(s, p, path) <==> (path, p) in s.shared
  }

  ghost predicate Excludes(s: State) {
    forall pair | pair in s.shared :: pair.0 !in s.exclusive
  }

  ghost predicate StageOk(stage: Stage, dir: Dir) {
    && (stage.Unpacked? ==> dir.content.Complete?)
    && (stage.Described? ==> dir.content.Complete? && dir.metadata)
  }

  /** What each program counter knows about the disk. */
  ghost predicate PcOk(s: State, pc: Pc) {
    match pc
    case Reading(k, _) => Commit(k) in s.disk
    case Returning(k, _) => Commit(k) in s.disk
    case Sharing(k, _) => Commit(k) in s.disk
    case Retaking(k, _) => Commit(k) in s.disk
    case RecheckMissed(k) => Commit(k) !in s.disk
    case WantExclusive(k) => Commit(k) !in s.disk
    case Checking(k) => Commit(k) !in s.disk
    case Making(k, held) => Commit(k) !in s.disk && held != Some(Commit(k))
    case Extracting(k, t, stage, held) =>
      && Commit(k) !in s.disk
      && held != Some(Commit(k))
      && Temporary(t) in s.disk
      && StageOk(stage, s.disk[Temporary(t)])
      && held != Some(Temporary(t))
    case Diffing(r, held) => held != Some(Repository(r))
    case Cleaning(scope, todo, locks) =>
      forall path | path in s.disk && InScope(scope, path) :: path in todo || path in locks
    case CleanRemoving(scope, locks) =>
      forall path | path in s.disk && InScope(scope, path) :: path in locks
    case _ => true
  }

  ghost predicate PcsOk(s: State) {
    forall p: nat {:trigger PcOf(s, p)} :: PcOk(s, PcOf(s, p))
  }

  /** The process is between publishing this key itself and giving it back. */
  predicate Published(pc: Pc, key: nat) {
    (pc.Sharing? || pc.Retaking? || pc.Returning? || pc.Reading?) && pc.key == key && !pc.hit
  }

  ghost predicate OnePublisher(s: State) {
    forall p: nat, q: nat, k: nat {:trigger Published(PcOf(s, p), k), Published(PcOf(s, q), k)} ::
      Published(PcOf(s, p), k) && Published(PcOf(s, q), k) ==> p == q
  }

  /** The lock tables say exactly what the program counters say. */
  ghost predicate Tables(s: State) {
    && WriterTable(s)
    && ExclusiveTable(s)
    && SharedTable(s)
    && Excludes(s)
  }

  ghost predicate Inv(s: State) {
    && DiskOk(s)
    && Tables(s)
    && PcsOk(s)
    && OnePublisher(s)
  }
}
