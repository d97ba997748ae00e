/**
 The guarantees of the cache protocol over whole runs.
 */
module CacheTheorems {
  import opened Wrappers
  import opened CacheProtocol
  import opened CacheSafety

  /******* Every reachable state is good *******/

  lemma {:induction false} RunInv(states: seq<State>, i: nat)
    requires Run(states) && i < |states|
    ensures Inv(states[i])
  {
    if i == 0 {
      InitInv(states[0]);
    } else {
      RunInv(states, i - 1);
      assert Linked(states, i);
      NextKeepsInv(states[i - 1], states[i]);
    }
  }

  lemma InitInv(s: State)
    requires Init(s)
    ensures Inv(s)
  {
  }

  lemma NextKeepsInv(s: State, s': State)
    requires Inv(s) && Next(s, s')
    ensures Inv(s')
  {
    if p: nat, a :| Step(s, p, a) == Some(s') {
      StepKeepsInv(s, p, a, s');
    } else {
      var dead: set<nat> :| s' == Crash(s, dead);
      CrashKeepsInv(s, dead);
    }
  }

  /******* Locks change hands properly *******/

  /** A step of one call leaves the locks of every other call alone. */
  lemma LocksOfOthersStay(s: State, p: nat, a: Action, s': State, q: nat, path: Path)
    requires Inv(s) && Step(s, p, a) == Some(s') && q != p
    ensures s'.writer == Some(q) <==> s.writer == Some(q)
    ensures path in s'.exclusive && s'.exclusive[path] == q <==> path in s.exclusive && s.exclusive[path] == q
    ensures (path, q) in s'.shared <==> (path, q) in s.shared
  {
    StepKeepsInv(s, p, a, s');
    assert PcOf(s', q) == PcOf(s, q);
    assert HoldsWriter(PcOf(s, q)) <==> HoldsWriter(PcOf(s', q));
    assert HoldsExclusive(s, q, path) <==> HoldsExclusive(s', q, path);
    assert HoldsShared(s, q, path) <==> HoldsShared(s', q, path);
  }

  /** A lock is taken only while it is free: the writer lock from nobody, an exclusive
      lock while no other call holds the entry at all, a shared one while no other
      call holds it exclusively. */
  lemma LocksAreTakenFree(s: State, p: nat, a: Action, s': State, path: Path)
    requires Inv(s) && Step(s, p, a) == Some(s')
    ensures s'.writer == Some(p) ==> s.writer == None || s.writer == Some(p)
    ensures path in s'.exclusive && s'.exclusive[path] == p ==>
      && (path in s.exclusive ==> s.exclusive[path] == p)
      && (forall q: nat | q != p :: (path, q) !in s.shared)
    ensures (path, p) in s'.shared && path in s.exclusive ==> s.exclusive[path] == p
  {
    StepKeepsInv(s, p, a, s');
    if s.writer.Some? && s.writer.value != p {
      LocksOfOthersStay(s, p, a, s', s.writer.value, path);
    }
    if path in s.exclusive && s.exclusive[path] != p {
      LocksOfOthersStay(s, p, a, s', s.exclusive[path], path);
      if (path, p) in s'.shared {
        SharedExcludes(s', path, p);
      }
    }
    forall q: nat | q != p && path in s'.exclusive ensures (path, q) !in s.shared {
      LocksOfOthersStay(s, p, a, s', q, path);
      if (path, q) in s'.shared {
        SharedExcludes(s', path, q);
      }
    }
  }

  lemma SharedExcludes(s: State, path: Path, p: nat)
    requires Excludes(s) && (path, p) in s.shared
    ensures path !in s.exclusive
  {
    var pair := (path, p);
    assert pair in s.shared && pair.0 == path;
  }

  lemma OneWriter(s: State, p: nat, q: nat)
    requires WriterTable(s) && HoldsWriter(PcOf(s, p)) && HoldsWriter(PcOf(s, q))
    ensures p == q
  {
    assert s.writer == Some(p);
  }

  /** The key fact: an entry is locked exclusively only by the process that also
      holds the writer lock, and never while anyone shares it. */
  lemma ExclusiveNeedsWriter(states: seq<State>, i: nat, path: Path)
    requires Run(states) && i < |states| && path in states[i].exclusive
    ensures states[i].writer == Some(states[i].exclusive[path])
    ensures forall p: nat :: (path, p) !in states[i].shared
  {
    RunInv(states, i);
    var s := states[i];
    var p := s.exclusive[path];
    assert HoldsExclusive(s, p, path);
    assert HoldsWriter(PcOf(s, p));
    forall q: nat ensures (path, q) !in s.shared {
      if (path, q) in s.shared {
        SharedExcludes(s, path, q);
        assert false;
      }
    }
  }

  /******* Reader safety *******/

  /** From the moment Ensure has found or published the snapshot until Release.
      Retaking is the gap in the middle of the downgrade, when no entry lock is held. */
  predicate Serving(pc: Pc, key: nat) {
    (pc.Sharing? || pc.Retaking? || pc.Returning? || pc.Reading?) && pc.key == key
  }

  lemma NobodyRemovesServed(s: State, p: nat, key: nat, q: nat)
    requires Inv(s) && Serving(PcOf(s, p), key) && HoldsExclusive(s, q, Commit(key))
    ensures p == q && PcOf(s, p).Sharing?
  {
    var mine, theirs := PcOf(s, p), PcOf(s, q);
    assert HoldsWriter(theirs);
    if mine.Reading? || mine.Returning? {
      assert HoldsShared(s, p, Commit(key));
      SharedExcludes(s, Commit(key), p);
      assert false;
    }
    assert HoldsWriter(mine);
  }

  predicate Publishes(s: State, q: nat, a: Action, key: nat) {
    a.Publish? && PcOf(s, q).Extracting? && PcOf(s, q).key == key
  }

  ghost predicate CommitChangesOnlySo(s: State, key: nat, q: nat, a: Action, s': State) {
    && (Published(PcOf(s', q), key) ==> Published(PcOf(s, q), key) || Publishes(s, q, a, key))
    && (a == Remove(Commit(key)) ==> Commit(key) !in s'.disk)
    && (a != Remove(Commit(key)) && !Publishes(s, q, a, key) && Commit(key) in s.disk ==>
          Commit(key) in s'.disk && s'.disk[Commit(key)] == s.disk[Commit(key)])
  }

  predicate Opens(a: Action) { a.Acquire? || a.Stat? || a.TryEvict? }
  predicate Closes(a: Action) { a.CloseEntry? || a.CloseLock? || a.CloseWriter? }
  predicate Fills(a: Action) { a.Fail? || a.Publish? || a.CreateTemporary? || a.UnpackSome? || a.Unpack? || a.Describe? }

  lemma OpeningChangesNothing(s: State, key: nat, q: nat, a: Action, s': State)
    requires Step(s, q, a) == Some(s') && Opens(a)
    ensures CommitChangesOnlySo(s, key, q, a, s')
  {
  }

  lemma ClosingChangesNothing(s: State, key: nat, q: nat, a: Action, s': State)
    requires Step(s, q, a) == Some(s') && Closes(a)
    ensures CommitChangesOnlySo(s, key, q, a, s')
  {
  }

  lemma FillingChangesOnlySo(s: State, key: nat, q: nat, a: Action, s': State)
    requires Step(s, q, a) == Some(s') && Fills(a)
    ensures CommitChangesOnlySo(s, key, q, a, s')
  {
  }

  lemma OthersChangeOnlySo(s: State, key: nat, q: nat, a: Action, s': State)
    requires Step(s, q, a) == Some(s') && !Opens(a) && !Closes(a) && !Fills(a)
    ensures CommitChangesOnlySo(s, key, q, a, s')
  {
  }

  /** A commit directory changes by being published or removed, and in no other way. */
  lemma OnlyPublishAndRemove(s: State, key: nat, q: nat, a: Action, s': State)
    requires Step(s, q, a) == Some(s')
    ensures CommitChangesOnlySo(s, key, q, a, s')
  {
    if Opens(a) {
      OpeningChangesNothing(s, key, q, a, s');
    } else if Closes(a) {
      ClosingChangesNothing(s, key, q, a, s');
    } else if Fills(a) {
      FillingChangesOnlySo(s, key, q, a, s');
    } else {
      OthersChangeOnlySo(s, key, q, a, s');
    }
  }

  lemma NobodyPublishesTwice(s: State, key: nat, q: nat, a: Action)
    requires Inv(s) && Publishes(s, q, a, key)
    ensures Commit(key) !in s.disk
  {
    assert PcOk(s, PcOf(s, q));
  }

  lemma StepKeepsServed(s: State, p: nat, key: nat, q: nat, a: Action, s': State)
    requires Inv(s) && Serving(PcOf(s, p), key) && Step(s, q, a) == Some(s')
    ensures Commit(key) in s.disk && Commit(key) in s'.disk
    ensures s'.disk[Commit(key)] == s.disk[Commit(key)]
  {
    assert PcOk(s, PcOf(s, p));
    OnlyPublishAndRemove(s, key, q, a, s');
    if a == Remove(Commit(key)) {
      RemoverHolds(s, key, q, s');
      NobodyRemovesServed(s, p, key, q);
      assert false;
    }
    if Publishes(s, q, a, key) {
      NobodyPublishesTwice(s, key, q, a);
      assert false;
    }
  }

  lemma RemoverHolds(s: State, key: nat, q: nat, s': State)
    requires Inv(s) && Step(s, q, Remove(Commit(key))) == Some(s')
    ensures HoldsExclusive(s, q, Commit(key)) && !PcOf(s, q).Sharing?
  {
    assert PcOk(s, PcOf(s, q));
  }

  /** One step of a run keeps what is served. */
  lemma ServedInRun(states: seq<State>, p: nat, key: nat, j: nat)
    requires Run(states) && 0 < j < |states|
    requires Serving(PcOf(states[j - 1], p), key)
    ensures Commit(key) in states[j - 1].disk && Commit(key) in states[j].disk
    ensures states[j].disk[Commit(key)] == states[j - 1].disk[Commit(key)]
  {
    RunInv(states, j - 1);
    assert Linked(states, j);
    var s, s' := states[j - 1], states[j];
    if q: nat, a :| Step(s, q, a) == Some(s') {
      StepKeepsServed(s, p, key, q, a, s');
    } else {
      assert PcOk(s, PcOf(s, p));
    }
  }

  lemma ServedIsComplete(states: seq<State>, p: nat, key: nat, i: nat)
    requires Run(states) && i < |states| && Serving(PcOf(states[i], p), key)
    ensures Commit(key) in states[i].disk
    ensures states[i].disk[Commit(key)].content.Complete? && states[i].disk[Commit(key)].metadata
  {
    RunInv(states, i);
    assert PcOk(states[i], PcOf(states[i], p));
  }

  /** Over every interleaving: a snapshot that Ensure serves stays published,
      complete and unchanged until its caller releases it. */
  lemma {:induction false} ReaderSafety(states: seq<State>, p: nat, key: nat, i: nat, j: nat)
    requires Run(states) && i <= j < |states|
    requires forall m | i <= m <= j :: Serving(PcOf(states[m], p), key)
    ensures Commit(key) in states[i].disk && Commit(key) in states[j].disk
    ensures states[j].disk[Commit(key)] == states[i].disk[Commit(key)]
    ensures states[j].disk[Commit(key)].content.Complete? && states[j].disk[Commit(key)].metadata
    decreases j
  {
    ServedIsComplete(states, p, key, j);
    if i < j {
      ReaderSafety(states, p, key, i, j - 1);
      ServedInRun(states, p, key, j);
    }
  }

  /******* Publication *******/

  /** Neither a crash nor a failure at any point leaves a half-made commit directory. */
  lemma PublicationAtomic(states: seq<State>, i: nat, key: nat)
    requires Run(states) && i < |states| && Commit(key) in states[i].disk
    ensures states[i].disk[Commit(key)].content.Complete? && states[i].disk[Commit(key)].metadata
  {
    RunInv(states, i);
  }

  lemma StepConverges(s: State, key: nat, q: nat, a: Action, s': State)
    requires Inv(s) && Step(s, q, a) == Some(s')
    requires Commit(key) in s.disk && Commit(key) in s'.disk
    ensures s'.disk[Commit(key)] == s.disk[Commit(key)]
    ensures forall p: nat :: Published(PcOf(s', p), key) ==> Published(PcOf(s, p), key)
  {
    OnlyPublishAndRemove(s, key, q, a, s');
    if Publishes(s, q, a, key) {
      NobodyPublishesTwice(s, key, q, a);
      assert false;
    }
  }

  lemma NextConverges(s: State, key: nat, s': State)
    requires Inv(s) && Next(s, s') && Commit(key) in s.disk && Commit(key) in s'.disk
    ensures s'.disk[Commit(key)] == s.disk[Commit(key)]
    ensures forall p: nat :: Published(PcOf(s', p), key) ==> Published(PcOf(s, p), key)
  {
    if q: nat, a :| Step(s, q, a) == Some(s') {
      StepConverges(s, key, q, a, s');
    }
  }

  lemma CopyInRun(states: seq<State>, key: nat, j: nat)
    requires Run(states) && 0 < j < |states|
    requires Commit(key) in states[j - 1].disk && Commit(key) in states[j].disk
    ensures states[j].disk[Commit(key)] == states[j - 1].disk[Commit(key)]
    ensures forall p: nat :: Published(PcOf(states[j], p), key) ==> Published(PcOf(states[j - 1], p), key)
  {
    RunInv(states, j - 1);
    assert Linked(states, j);
    NextConverges(states[j - 1], key, states[j]);
  }

  lemma {:induction false} CopyStays(states: seq<State>, key: nat, i: nat, j: nat)
    requires Run(states) && i <= j < |states|
    requires forall m | i <= m <= j :: Commit(key) in states[m].disk
    ensures states[j].disk[Commit(key)] == states[i].disk[Commit(key)]
    ensures forall p: nat :: Published(PcOf(states[j], p), key) ==> Published(PcOf(states[i], p), key)
    decreases j
  {
    if i < j {
      CopyStays(states, key, i, j - 1);
      CopyInRun(states, key, j);
      forall p: nat | Published(PcOf(states[j], p), key) ensures Published(PcOf(states[i], p), key) {
        assert Published(PcOf(states[j - 1], p), key);
      }
    }
  }

  /** Between two deletions there is one publication: while the directory is
      there it is the same copy, and only the process that published it can
      ever report a miss. Everybody who comes later reports a hit. */
  lemma PublicationConverges(states: seq<State>, key: nat, i: nat, j: nat)
    requires Run(states) && i <= j < |states|
    requires forall m | i <= m <= j :: Commit(key) in states[m].disk
    ensures states[j].disk[Commit(key)] == states[i].disk[Commit(key)]
    ensures forall p: nat, q: nat ::
              Published(PcOf(states[j], p), key) && Published(PcOf(states[j], q), key) ==> p == q
    ensures forall p: nat ::
              Serving(PcOf(states[j], p), key) && !Serving(PcOf(states[i], p), key) ==> PcOf(states[j], p).hit
  {
    CopyStays(states, key, i, j);
    RunInv(states, j);
    forall p: nat | Serving(PcOf(states[j], p), key) && !Serving(PcOf(states[i], p), key)
      ensures PcOf(states[j], p).hit
    {
      assert Published(PcOf(states[j], p), key) == !PcOf(states[j], p).hit;
    }
  }

  /******* No deadlock *******/

  predicate Waiting(pc: Pc) {
    !WantOf(pc).Nothing?
  }

  /** Actions that need nobody's goodwill: no new call, no timeout, no error, no release. */
  predicate Forward(a: Action) {
    !a.Start? && !a.Fail? && !a.Release?
  }

  /** The step gets the process somewhere: it moves on, or RemoveTree deletes one more entry. */
  predicate Progress(s: State, p: nat, s': State) {
    PcOf(s', p) != PcOf(s, p) || (PcOf(s, p).CleanRemoving? && s'.disk != s.disk)
  }

  ghost predicate CanStep(s: State, p: nat) {
    exists a :: Forward(a) && Step(s, p, a).Some? && Progress(s, p, Step(s, p, a).value)
  }

  /** Process q holds the lock that process p waits for. */
  ghost predicate Blocks(s: State, p: nat, q: nat) {
    match WantOf(PcOf(s, p))
    case Nothing => false
    case TheWriter => s.writer == Some(q)
    case SharedOn(path) => HoldsExclusive(s, q, path)
    case ExclusiveOn(path) => HoldsExclusive(s, q, path) || HoldsShared(s, q, path)
  }

  /** A process that neither waits, nor reads, nor idles can always move on. */
  lemma BusyCanStep(s: State, p: nat)
    requires Inv(s)
    requires !Waiting(PcOf(s, p)) && !PcOf(s, p).Idle? && !PcOf(s, p).Reading?
    ensures CanStep(s, p)
  {
    var pc := PcOf(s, p);
    assert PcOk(s, pc);
    var a := NextAction(s, pc);
    assert Forward(a) && Step(s, p, a).Some? && Progress(s, p, Step(s, p, a).value);
  }

  ghost function NextAction(s: State, pc: Pc): Action {
    match pc
    case Probing(_) => Stat
    case ProbeMissed(_) => CloseEntry
    case Rechecking(_) => Stat
    case RecheckMissed(_) => CloseEntry
    case Checking(_) => Stat
    case Making(_, held) => if held.Some? then CloseLock(held.value) else CreateTemporary
    case Extracting(_, _, stage, held) =>
      if held.Some? then CloseLock(held.value)
      else if stage.Unpacking? then Unpack
      else if stage.Unpacked? then Describe
      else Publish
    case Sharing(_, _) => DropForShare
    case Returning(_, _) => CloseWriter
    case Failing(_, temporary, locked) =>
      if temporary.Some? then Remove(Temporary(temporary.value)) else if locked then CloseEntry else CloseWriter
    case Diffing(_, held) => if held.Some? then CloseLock(held.value) else FinishDiff
    case DiffClosing(_) => CloseEntry
    case ClosingWriter => CloseWriter
    case CleanListing(_) => List
    case Cleaning(_, todo, _) => if todo == {} then BeginRemove else var path :| path in todo; TryClean(path)
    case CleanRemoving(scope, _) =>
      if path :| path in s.disk && InScope(scope, path) then Remove(path) else EndRemove
    case CleanClosing(locks) => if locks == {} then CloseWriter else var path :| path in locks; CloseLock(path)
    case _ => Acquire
  }

  lemma ExclusiveHolderCanStep(s: State, p: nat, path: Path)
    requires Inv(s) && HoldsExclusive(s, p, path)
    ensures CanStep(s, p)
  {
    BusyCanStep(s, p);
  }

  /** Whoever waits under the writer lock gets its lock, or waits only for a
      reader that found nothing and is about to close. */
  lemma WriterHolderProceeds(s: State, p: nat)
    requires Inv(s) && HoldsWriter(PcOf(s, p))
    ensures CanStep(s, p) || exists q: nat ::
              Blocks(s, p, q) && CanStep(s, q) && (PcOf(s, q).Probing? || PcOf(s, q).ProbeMissed?)
  {
    var pc := PcOf(s, p);
    assert PcOk(s, pc);
    if !Waiting(pc) {
      BusyCanStep(s, p);
    } else if Step(s, p, Acquire).Some? {
      assert Forward(Acquire) && Progress(s, p, Step(s, p, Acquire).value);
    } else {
      var path := WantOf(pc).path;
      if path in s.exclusive {
        var q := s.exclusive[path];
        assert HoldsExclusive(s, q, path);
        OneWriter(s, p, q);
        assert false;
      } else {
        var pair :| pair in s.shared && pair.0 == path;
        var q := pair.1;
        assert HoldsShared(s, q, path);
        assert PcOk(s, PcOf(s, q));
        BusyCanStep(s, q);
      }
    }
  }

  /** In every reachable state, behind every waiting process there is one that can
      step now: the process itself, the holder of its lock, or, when that holder
      is itself waiting, the holder of that lock. Nobody needs to time out, fail
      or release a snapshot first. */
  lemma DeadlockFree(states: seq<State>, i: nat, p: nat)
    requires Run(states) && i < |states| && Waiting(PcOf(states[i], p))
    ensures var s := states[i];
            || CanStep(s, p)
            || (exists q: nat :: Blocks(s, p, q) && CanStep(s, q))
            || (exists q: nat, r: nat :: Blocks(s, p, q) && Blocks(s, q, r) && CanStep(s, r))
  {
    RunInv(states, i);
    var s := states[i];
    var pc := PcOf(s, p);
    if Step(s, p, Acquire).Some? {
      assert Forward(Acquire) && Progress(s, p, Step(s, p, Acquire).value);
    } else if WantOf(pc).TheWriter? {
      var q := s.writer.value;
      assert HoldsWriter(PcOf(s, q));
      assert Blocks(s, p, q);
      WriterHolderProceeds(s, q);
    } else if HoldsWriter(pc) {
      WriterHolderProceeds(s, p);
    } else {
      var path := WantOf(pc).path;
      var q := s.exclusive[path];
      assert HoldsExclusive(s, q, path);
      ExclusiveHolderCanStep(s, q, path);
      assert Blocks(s, p, q);
    }
  }
}
