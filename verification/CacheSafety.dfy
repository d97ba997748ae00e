/**
 The invariant of the cache protocol: every step and every crash keeps it.
 */
module CacheSafety {
  import opened Wrappers
  import opened CacheProtocol

  /******* What one step does to the locks *******/

  datatype LockChange =
    | Quiet
    | TakesWriter
    | DropsWriter
    | TakesExclusive(path: Path)
    | DropsExclusive(path: Path)
    | TakesShared(path: Path)
    | DropsShared(path: Path)

  predicate WriterMoves(s: State, p: nat, s': State, c: LockChange) {
    var before, after := HoldsWriter(PcOf(s, p)), HoldsWriter(PcOf(s', p));
    match c
    case TakesWriter => s.writer.None? && s'.writer == Some(p) && after
    case DropsWriter => before && s'.writer.None? && !after
    case _ => s'.writer == s.writer && before == after
  }

  predicate ExclusiveMoves(s: State, p: nat, s': State, c: LockChange) {
    var before, after := ExclusiveOf(PcOf(s, p)), ExclusiveOf(PcOf(s', p));
    match c
    case TakesExclusive(path) =>
      ExclusiveFree(s, path) && s'.exclusive == s.exclusive[path := p] && after == before + {path}
    case DropsExclusive(path) =>
      path in before && s'.exclusive == s.exclusive - {path} && after == before - {path}
    case _ => s'.exclusive == s.exclusive && after == before
  }

  predicate SharedMoves(s: State, p: nat, s': State, c: LockChange) {
    var before, after := SharedOf(PcOf(s, p)), SharedOf(PcOf(s', p));
    match c
    case TakesShared(path) =>
      path !in s.exclusive && s'.shared == s.shared + {(path, p)} && after == before + {path}
    case DropsShared(path) =>
      s'.shared == s.shared - {(path, p)} && after == before - {path}
    case _ => s'.shared == s.shared && after == before
  }

  ghost predicate Moves(s: State, p: nat, s': State, c: LockChange) {
    OthersStay(s, p, s') && WriterMoves(s, p, s', c) && ExclusiveMoves(s, p, s', c) && SharedMoves(s, p, s', c)
  }

  lemma TablesKept(s: State, p: nat, s': State, c: LockChange)
    requires Tables(s) && Moves(s, p, s', c)
    ensures Tables(s')
  {
    forall q: nat ensures HoldsWriter(PcOf(s', q)) <==> s'.writer == Some(q) {
      assert HoldsWriter(PcOf(s, q)) <==> s.writer == Some(q);
    }
    forall q: nat, path
      ensures HoldsExclusive(s', q, path) <==> (path in s'.exclusive && s'.exclusive[path] == q)
    {
      assert HoldsExclusive(s, q, path) <==> (path in s.exclusive && s.exclusive[path] == q);
      assert HoldsExclusive(s, p, path) <==> (path in s.exclusive && s.exclusive[path] == p);
    }
    forall q: nat, path ensures HoldsShared(s', q, path) <==> (path, q) in s'.shared {
      assert HoldsShared(s, q, path) <==> (path, q) in s.shared;
    }
  }

  /******* What one step does to the disk *******/

  /** Only the process that holds the writer lock touches the disk, and it
      removes a commit directory only under that directory's exclusive lock. */
  ghost predicate DiskMoves(s: State, p: nat, s': State) {
    s'.disk == s.disk ||
    (HoldsWriter(PcOf(s, p)) &&
     forall path | path in s.disk && path.Commit? :: path in s'.disk || HoldsExclusive(s, p, path))
  }

  lemma PcsKept(s: State, p: nat, s': State)
    requires Tables(s) && PcsOk(s) && OthersStay(s, p, s') && DiskMoves(s, p, s')
    requires PcOk(s', PcOf(s', p))
    ensures PcsOk(s')
  {
    forall q: nat ensures PcOk(s', PcOf(s', q)) {
      if q != p && s'.disk != s.disk {
        var pc := PcOf(s, q);
        assert HoldsWriter(PcOf(s, p)) && !HoldsWriter(pc);
        if pc.Reading? {
          assert HoldsShared(s, q, Commit(pc.key)) && !HoldsExclusive(s, p, Commit(pc.key));
          assert PcOk(s, pc);
        }
      } else if q != p {
        assert PcOk(s, PcOf(s, q));
      }
    }
  }

  lemma PublisherKept(s: State, p: nat, s': State)
    requires OnePublisher(s) && PcsOk(s) && OthersStay(s, p, s')
    requires forall k: nat :: Published(PcOf(s', p), k) ==> Published(PcOf(s, p), k) || Commit(k) !in s.disk
    ensures OnePublisher(s')
  {
    forall q: nat, r: nat, k: nat | Published(PcOf(s', q), k) && Published(PcOf(s', r), k) ensures q == r {
      assert PcOk(s, PcOf(s, q)) && PcOk(s, PcOf(s, r));
      assert q != p ==> Published(PcOf(s, q), k);
      assert r != p ==> Published(PcOf(s, r), k);
    }
  }

  lemma InvKept(s: State, p: nat, s': State, c: LockChange)
    requires Inv(s) && Moves(s, p, s', c) && DiskOk(s') && DiskMoves(s, p, s')
    requires PcOk(s', PcOf(s', p))
    requires forall k: nat :: Published(PcOf(s', p), k) ==> Published(PcOf(s, p), k) || Commit(k) !in s.disk
    ensures Inv(s')
  {
    TablesKept(s, p, s', c);
    PcsKept(s, p, s');
    PublisherKept(s, p, s');
  }

  /** A step that only moves the program counter, between counters with the same locks. */
  lemma MoveKept(s: State, p: nat, pc: Pc)
    requires Inv(s)
    requires HoldsWriter(PcOf(s, p)) == HoldsWriter(pc)
    requires ExclusiveOf(PcOf(s, p)) == ExclusiveOf(pc)
    requires SharedOf(PcOf(s, p)) == SharedOf(pc)
    requires PcOk(s, pc) && forall k: nat :: Published(pc, k) ==> Commit(k) !in s.disk
    ensures Inv(Move(s, p, pc))
  {
    InvKept(s, p, Move(s, p, pc), Quiet);
  }

  /******* Every kind of step *******/

  lemma WriterAcquireKeepsInv(s: State, p: nat, s': State)
    requires Inv(s) && AcquireStep(s, p) == Some(s') && WantOf(PcOf(s, p)).TheWriter?
    ensures Inv(s')
  {
    InvKept(s, p, s', TakesWriter);
  }

  lemma SharedAcquireKeepsInv(s: State, p: nat, s': State)
    requires Inv(s) && AcquireStep(s, p) == Some(s') && WantOf(PcOf(s, p)).SharedOn?
    ensures Inv(s')
  {
    assert PcOk(s, PcOf(s, p));
    InvKept(s, p, s', TakesShared(WantOf(PcOf(s, p)).path));
  }

  lemma ExclusiveAcquireKeepsInv(s: State, p: nat, s': State)
    requires Inv(s) && AcquireStep(s, p) == Some(s') && WantOf(PcOf(s, p)).ExclusiveOn?
    ensures Inv(s')
  {
    assert PcOk(s, PcOf(s, p));
    InvKept(s, p, s', TakesExclusive(WantOf(PcOf(s, p)).path));
  }

  lemma AcquireKeepsInv(s: State, p: nat, s': State)
    requires Inv(s) && AcquireStep(s, p) == Some(s')
    ensures Inv(s')
  {
    match WantOf(PcOf(s, p))
    case TheWriter => WriterAcquireKeepsInv(s, p, s');
    case SharedOn(_) => SharedAcquireKeepsInv(s, p, s');
    case ExclusiveOn(_) => ExclusiveAcquireKeepsInv(s, p, s');
  }

  lemma FailKeepsInv(s: State, p: nat, s': State)
    requires Inv(s) && FailStep(s, p) == Some(s')
    ensures Inv(s')
  {
    MoveKept(s, p, PcOf(s', p));
  }

  lemma StatKeepsInv(s: State, p: nat, s': State)
    requires Inv(s) && StatStep(s, p) == Some(s')
    ensures Inv(s')
  {
    assert PcOk(s, PcOf(s, p));
    InvKept(s, p, s', Quiet);
  }

  lemma CloseSharedKeepsInv(s: State, p: nat, s': State)
    requires Inv(s) && CloseEntryStep(s, p) == Some(s')
    requires PcOf(s, p).ProbeMissed? || PcOf(s, p).RecheckMissed?
    ensures Inv(s')
  {
    var pc := PcOf(s, p);
    assert PcOk(s, pc);
    InvKept(s, p, s', DropsShared(Commit(pc.key)));
  }

  lemma CloseEntryKeepsInv(s: State, p: nat, s': State)
    requires Inv(s) && CloseEntryStep(s, p) == Some(s')
    ensures Inv(s')
  {
    var pc := PcOf(s, p);
    assert PcOk(s, pc);
    match pc
    case DiffClosing(r) => InvKept(s, p, s', DropsExclusive(Repository(r)));
    case Failing(k, _, _) => InvKept(s, p, s', DropsExclusive(Commit(k)));
    case ProbeMissed(_) => CloseSharedKeepsInv(s, p, s');
    case RecheckMissed(_) => CloseSharedKeepsInv(s, p, s');
  }

  lemma CloseLockKeepsInv(s: State, p: nat, path: Path, s': State)
    requires Inv(s) && CloseLockStep(s, p, path) == Some(s')
    ensures Inv(s')
  {
    assert PcOk(s, PcOf(s, p));
    InvKept(s, p, s', DropsExclusive(path));
  }

  lemma CloseWriterKeepsInv(s: State, p: nat, s': State)
    requires Inv(s) && CloseWriterStep(s, p) == Some(s')
    ensures Inv(s')
  {
    assert PcOk(s, PcOf(s, p));
    InvKept(s, p, s', DropsWriter);
  }

  lemma TryEvictKeepsInv(s: State, p: nat, path: Path, s': State)
    requires Inv(s) && TryEvictStep(s, p, path) == Some(s')
    ensures Inv(s')
  {
    var pc := PcOf(s, p);
    assert PcOk(s, pc);
    assert pc.Making? || pc.Extracting? ==> HoldsExclusive(s, p, Commit(pc.key));
    InvKept(s, p, s', TakesExclusive(path));
  }

  lemma RemoveKeepsInv(s: State, p: nat, path: Path, s': State)
    requires Inv(s) && RemoveStep(s, p, path) == Some(s')
    ensures Inv(s')
  {
    assert PcOk(s, PcOf(s, p));
    InvKept(s, p, s', Quiet);
  }

  lemma PublishKeepsInv(s: State, p: nat, s': State)
    requires Inv(s) && PublishStep(s, p) == Some(s')
    ensures Inv(s')
  {
    assert PcOk(s, PcOf(s, p));
    InvKept(s, p, s', Quiet);
  }

  lemma ExtractKeepsInv(s: State, p: nat, a: Action, s': State)
    requires Inv(s) && ExtractStep(s, p, a) == Some(s')
    ensures Inv(s')
  {
    assert PcOk(s, PcOf(s, p));
    InvKept(s, p, s', Quiet);
  }

  lemma CleanTakesKeepsInv(s: State, p: nat, path: Path, s': State)
    requires Inv(s) && CleanStep(s, p, TryClean(path)) == Some(s') && ExclusiveFree(s, path)
    ensures Inv(s')
  {
    assert PcOk(s, PcOf(s, p));
    InvKept(s, p, s', TakesExclusive(path));
  }

  lemma CleanKeepsInv(s: State, p: nat, a: Action, s': State)
    requires Inv(s) && CleanStep(s, p, a) == Some(s')
    ensures Inv(s')
  {
    if a.TryClean? && ExclusiveFree(s, a.path) {
      CleanTakesKeepsInv(s, p, a.path, s');
    } else {
      assert PcOk(s, PcOf(s, p));
      InvKept(s, p, s', Quiet);
    }
  }

  lemma GiveUpLockKeepsInv(s: State, p: nat, a: Action, s': State)
    requires Inv(s) && Step(s, p, a) == Some(s')
    requires a.DropForShare? || a.Release?
    ensures Inv(s')
  {
    var pc := PcOf(s, p);
    assert PcOk(s, pc);
    if a.DropForShare? {
      InvKept(s, p, s', DropsExclusive(Commit(pc.key)));
    } else {
      InvKept(s, p, s', DropsShared(Commit(pc.key)));
    }
  }

  lemma QuietKeepsInv(s: State, p: nat, a: Action, s': State)
    requires Inv(s) && Step(s, p, a) == Some(s')
    requires a.Start? || a.Sweep? || a.WriteRepository? || a.FinishDiff?
    ensures Inv(s')
  {
    assert PcOk(s, PcOf(s, p));
    InvKept(s, p, s', Quiet);
  }

  predicate OfLocks(a: Action) {
    a.Acquire? || a.Stat? || a.CloseEntry? || a.CloseLock? || a.CloseWriter? || a.DropForShare? || a.Release?
  }

  lemma LockStepKeepsInv(s: State, p: nat, a: Action, s': State)
    requires Inv(s) && Step(s, p, a) == Some(s') && OfLocks(a)
    ensures Inv(s')
  {
    match a
    case Acquire => AcquireKeepsInv(s, p, s');
    case Stat => StatKeepsInv(s, p, s');
    case CloseEntry => CloseEntryKeepsInv(s, p, s');
    case CloseLock(path) => CloseLockKeepsInv(s, p, path, s');
    case CloseWriter => CloseWriterKeepsInv(s, p, s');
    case _ => GiveUpLockKeepsInv(s, p, a, s');
  }

  lemma DiskStepKeepsInv(s: State, p: nat, a: Action, s': State)
    requires Inv(s) && Step(s, p, a) == Some(s') && !OfLocks(a)
    ensures Inv(s')
  {
    match a
    case Fail => FailKeepsInv(s, p, s');
    case TryEvict(path) => TryEvictKeepsInv(s, p, path, s');
    case Remove(path) => RemoveKeepsInv(s, p, path, s');
    case Publish => PublishKeepsInv(s, p, s');
    case _ =>
      if a.List? || a.TryClean? || a.BeginRemove? || a.EndRemove? {
        CleanKeepsInv(s, p, a, s');
      } else if a.CreateTemporary? || a.UnpackSome? || a.Unpack? || a.Describe? {
        ExtractKeepsInv(s, p, a, s');
      } else {
        QuietKeepsInv(s, p, a, s');
      }
  }

  lemma StepKeepsInv(s: State, p: nat, a: Action, s': State)
    requires Inv(s) && Step(s, p, a) == Some(s')
    ensures Inv(s')
  {
    if OfLocks(a) {
      LockStepKeepsInv(s, p, a, s');
    } else {
      DiskStepKeepsInv(s, p, a, s');
    }
  }

  lemma CrashKeepsInv(s: State, dead: set<nat>)
    requires Inv(s)
    ensures Inv(Crash(s, dead))
  {
    var s' := Crash(s, dead);
    assert forall q: nat :: PcOf(s', q) == if q in dead then Idle else PcOf(s, q);
    forall q: nat ensures HoldsWriter(PcOf(s', q)) <==> s'.writer == Some(q) {
      assert HoldsWriter(PcOf(s, q)) <==> s.writer == Some(q);
    }
    forall q: nat, path
      ensures HoldsExclusive(s', q, path) <==> (path in s'.exclusive && s'.exclusive[path] == q)
    {
      assert HoldsExclusive(s, q, path) <==> (path in s.exclusive && s.exclusive[path] == q);
    }
    forall q: nat, path ensures HoldsShared(s', q, path) <==> (path, q) in s'.shared {
      assert HoldsShared(s, q, path) <==> (path, q) in s.shared;
    }
    forall q: nat ensures PcOk(s', PcOf(s', q)) {
      assert PcOk(s, PcOf(s, q));
    }
    forall q: nat, r: nat, k: nat | Published(PcOf(s', q), k) && Published(PcOf(s', r), k) ensures q == r {
      assert Published(PcOf(s, q), k) && Published(PcOf(s, r), k);
    }
  }
}
