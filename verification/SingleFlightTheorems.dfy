/**
 What single-flight guarantees, for any number of requests and every interleaving.
 */
module SingleFlightTheorems {
  import opened Wrappers
  import opened Sets
  import opened SingleFlight

  /** Moving about without leading a call before or after. */
  lemma MoveKeepsInv(s: State, p: nat, pc: Pc, s': State)
    requires Inv(s) && s' == Move(s, p, pc)
    requires !Leads(PcOf(s, p)) && !PcOf(s, p).Unregistered?
    requires !Leads(pc) && !pc.Unregistered? && PcOk(s', p)
    ensures Inv(s')
  {
    forall q: nat ensures PcOk(s', q) && SlotOk(s', q) {
      assert PcOk(s, q) && SlotOk(s, q) && (q != p ==> PcOf(s', q) == PcOf(s, q));
    }
  }

  lemma LookKeepsInv(s: State, p: nat, s': State)
    requires Inv(s) && LookStep(s, p) == Some(s')
    ensures Inv(s')
  {
    MoveKeepsInv(s, p, PcOf(s', p), s');
  }

  lemma RegisterKeepsInv(s: State, p: nat, s': State)
    requires Inv(s) && RegisterStep(s, p) == Some(s')
    ensures Inv(s')
  {
    var h := PcOf(s, p).hash;
    if h in s.builds {
      MoveKeepsInv(s, p, PcOf(s', p), s');
    } else {
      forall q: nat ensures PcOk(s', q) && SlotOk(s', q) {
        assert PcOk(s, q) && SlotOk(s, q) && SlotOk(s, p) && (q != p ==> PcOf(s', q) == PcOf(s, q));
      }
    }
  }

  lemma WakeKeepsInv(s: State, p: nat, s': State)
    requires Inv(s) && WakeStep(s, p) == Some(s')
    ensures Inv(s')
  {
    assert PcOk(s, p);
    MoveKeepsInv(s, p, PcOf(s', p), s');
  }

  lemma GiveUpKeepsInv(s: State, p: nat, s': State)
    requires Inv(s) && GiveUpStep(s, p) == Some(s')
    ensures Inv(s')
  {
    assert PcOk(s, p);
    if PcOf(s, p).Waiting? {
      MoveKeepsInv(s, p, PcOf(s', p), s');
    } else {
      forall q: nat ensures PcOk(s', q) && SlotOk(s', q) {
        assert PcOk(s, q) && SlotOk(s, q) && SlotOk(s, p) && (q != p ==> PcOf(s', q) == PcOf(s, q));
      }
    }
  }

  lemma BuildKeepsInv(s: State, p: nat, a: Action, s': State)
    requires Inv(s) && BuildStep(s, p, a) == Some(s')
    ensures Inv(s')
  {
    forall q: nat ensures PcOk(s', q) && SlotOk(s', q) {
      assert PcOk(s, q) && SlotOk(s, q) && PcOk(s, p) && (q != p ==> PcOf(s', q) == PcOf(s, q));
    }
  }

  lemma EndKeepsInv(s: State, p: nat, a: Action, s': State)
    requires Inv(s) && EndStep(s, p, a) == Some(s')
    ensures Inv(s')
  {
    forall q: nat ensures PcOk(s', q) && SlotOk(s', q) {
      assert PcOk(s, q) && SlotOk(s, q) && PcOk(s, p) && (q != p ==> PcOf(s', q) == PcOf(s, q));
    }
  }

  lemma StepKeepsInv(s: State, p: nat, a: Action, s': State)
    requires Inv(s) && Step(s, p, a) == Some(s')
    ensures Inv(s')
  {
    if a.Start? { MoveKeepsInv(s, p, Looking(a.hash), s'); }
    else if a.Finish? { MoveKeepsInv(s, p, Idle, s'); }
    else if a.Lookup? || a.CheckInvalid? { LookKeepsInv(s, p, s'); }
    else if a.Register? { RegisterKeepsInv(s, p, s'); }
    else if a.Wake? { WakeKeepsInv(s, p, s'); }
    else if a.GiveUp? { GiveUpKeepsInv(s, p, s'); }
    else if a.TakeSlot? || a.Probe? || a.ReleaseSlot? { BuildKeepsInv(s, p, a, s'); }
    else { EndKeepsInv(s, p, a, s'); }
  }

  /** What happens to the cached users and the marks touches no request. */
  lemma WorldKeepsInv(s: State, s': State)
    requires Inv(s) && s' == s.(users := s'.users, invalid := s'.invalid)
    ensures Inv(s')
  {
    forall q: nat ensures PcOk(s', q) && SlotOk(s', q) {
      assert PcOk(s, q) && SlotOk(s, q) && PcOf(s', q) == PcOf(s, q);
    }
  }

  lemma NextKeepsInv(s: State, s': State)
    requires Inv(s) && Next(s, s')
    ensures Inv(s')
  {
    if p: nat, a :| Step(s, p, a) == Some(s') {
      StepKeepsInv(s, p, a, s');
    } else {
      WorldKeepsInv(s, s');
    }
  }

  lemma {:induction false} RunInv(states: seq<State>, i: nat)
    requires Run(states) && i < |states|
    ensures Inv(states[i])
  {
    if i == 0 {
      forall q: nat ensures PcOk(states[0], q) && SlotOk(states[0], q) {
        assert PcOf(states[0], q) == Idle;
      }
    } else {
      RunInv(states, i - 1);
      assert Linked(states, i);
      NextKeepsInv(states[i - 1], states[i]);
    }
  }

  /******* Theorems *******/

  /** At any moment at most one request is resolving a given token. */
  lemma OneProbePerToken(states: seq<State>, i: nat, p: nat, q: nat)
    requires Run(states) && i < |states|
    requires Leads(PcOf(states[i], p)) && Leads(PcOf(states[i], q))
    requires PcOf(states[i], p).hash == PcOf(states[i], q).hash
    ensures p == q
  {
    RunInv(states, i);
    assert PcOk(states[i], p) && PcOk(states[i], q);
  }

  /** At any moment at most eight requests are probing, for whatever tokens. */
  lemma EightProbesAtMost(states: seq<State>, i: nat, probing: set<nat>)
    requires Run(states) && i < |states|
    requires forall p | p in probing :: HoldsSlot(PcOf(states[i], p))
    ensures |probing| <= RESOLVE_CONCURRENCY
  {
    RunInv(states, i);
    var s := states[i];
    forall p | p in probing ensures p in s.slots { assert SlotOk(s, p); }
    SubsetSize(probing, s.slots);
  }

  /** A registered call has not finished, so nobody ever joins a finished one. */
  lemma NoFinishedCallRegistered(states: seq<State>, i: nat, h: Hash)
    requires Run(states) && i < |states| && h in states[i].builds
    ensures states[i].builds[h] in states[i].calls
    ensures var call := states[i].calls[states[i].builds[h]]; call.hash == h && !call.done
  {
    RunInv(states, i);
    assert PcOk(states[i], states[i].calls[states[i].builds[h]].leader);
  }

  ghost predicate Finished(s: State, c: nat) {
    c in s.calls && s.calls[c].done
  }

  /** A call is touched by being made, given its result, and closed. */
  lemma WhoTouchesCalls(s: State, p: nat, a: Action, s': State)
    requires Step(s, p, a) == Some(s') && !a.Register? && !a.Record? && !a.CloseCall?
    ensures s'.calls == s.calls
  {
  }

  lemma TouchKeepsFinished(s: State, p: nat, a: Action, s': State, c: nat)
    requires Inv(s) && Step(s, p, a) == Some(s') && (a.Register? || a.Record? || a.CloseCall?)
    requires Finished(s, c)
    ensures Finished(s', c) && s'.calls[c] == s.calls[c]
  {
    assert PcOk(s, p);
  }

  /** A finished call never changes. */
  lemma StepKeepsFinished(s: State, s': State, c: nat)
    requires Inv(s) && Next(s, s') && Finished(s, c)
    ensures Finished(s', c) && s'.calls[c] == s.calls[c]
  {
    if p: nat, a :| Step(s, p, a) == Some(s') {
      if a.Register? || a.Record? || a.CloseCall? {
        TouchKeepsFinished(s, p, a, s', c);
      } else {
        WhoTouchesCalls(s, p, a, s');
      }
    }
  }

  lemma {:induction false} FinishedStays(states: seq<State>, i: nat, j: nat, c: nat)
    requires Run(states) && i <= j < |states| && Finished(states[i], c)
    ensures Finished(states[j], c) && states[j].calls[c] == states[i].calls[c]
    decreases j - i
  {
    if i < j {
      RunInv(states, i);
      assert Linked(states, i + 1);
      StepKeepsFinished(states[i], states[i + 1], c);
      FinishedStays(states, i + 1, j, c);
    }
  }

  /** The request has returned the result of call c, as its leader or after waiting for it. */
  predicate ReturnedFrom(pc: Pc, c: nat) {
    pc.Returned? && (pc.via == Led(c) || pc.via == Waited(c))
  }

  /** Everyone who returns a call's result, whenever in the run, returns the same
      one, and for the same token. Only its leader returns it as leader. */
  lemma AllShareOneResult(states: seq<State>, i: nat, j: nat, p: nat, q: nat, c: nat)
    requires Run(states) && i <= j < |states|
    requires ReturnedFrom(PcOf(states[i], p), c) && ReturnedFrom(PcOf(states[j], q), c)
    ensures PcOf(states[i], p).outcome == PcOf(states[j], q).outcome
    ensures PcOf(states[i], p).hash == PcOf(states[j], q).hash
    ensures PcOf(states[i], p).via.Led? && PcOf(states[j], q).via.Led? ==> p == q
  {
    RunInv(states, i);
    RunInv(states, j);
    assert PcOk(states[i], p) && PcOk(states[j], q);
    FinishedStays(states, i, j, c);
  }

  /** A request that waited and did not get the call's result got its own context's error. */
  lemma OtherwiseItsOwnError(states: seq<State>, i: nat, p: nat)
    requires Run(states) && i < |states| && PcOf(states[i], p).Returned?
    ensures var pc := PcOf(states[i], p);
      || (pc.via.FromCache? && pc.outcome.User?)
      || (pc.via.FromInvalid? && pc.outcome == Rejected)
      || (pc.via.GaveUp? && pc.outcome == Canceled)
      || ((pc.via.Led? || pc.via.Waited?) && Finished(states[i], pc.via.call)
          && states[i].calls[pc.via.call].outcome == Some(pc.outcome))
  {
    RunInv(states, i);
    assert PcOk(states[i], p);
  }

  /******* Nobody waits in vain *******/

  /** The request can take a step of its own work; giving up does not count. */
  ghost predicate CanWork(s: State, p: nat) {
    exists a: Action :: !a.GiveUp? && Step(s, p, a).Some?
  }

  lemma BuilderCanWork(s: State, p: nat)
    requires PcOf(s, p).Probing? || PcOf(s, p).Releasing?
    ensures CanWork(s, p)
  {
    if PcOf(s, p).Probing? {
      assert Step(s, p, Probe(Canceled, s.users, s.invalid)).Some?;
    } else {
      assert Step(s, p, ReleaseSlot).Some?;
    }
  }

  lemma EnderCanWork(s: State, p: nat)
    requires PcOk(s, p) && (PcOf(s, p).Built? || PcOf(s, p).Recorded? || PcOf(s, p).Unregistered?)
    ensures CanWork(s, p)
  {
    var pc := PcOf(s, p);
    var a := if pc.Built? then Record else if pc.Recorded? then Unregister else CloseCall;
    assert Step(s, p, a).Some?;
  }

  lemma LeaderCanWork(s: State, p: nat)
    requires Inv(s) && (Leads(PcOf(s, p)) || PcOf(s, p).Unregistered?)
    ensures CanWork(s, p) || (PcOf(s, p).WantSlot? && |s.slots| == RESOLVE_CONCURRENCY)
  {
    assert PcOk(s, p);
    var pc := PcOf(s, p);
    if pc.WantSlot? {
      if |s.slots| < RESOLVE_CONCURRENCY { assert Step(s, p, TakeSlot).Some?; }
    } else if pc.Probing? || pc.Releasing? {
      BuilderCanWork(s, p);
    } else {
      EnderCanWork(s, p);
    }
  }

  /** A waiter can wake; or its leader can work; or its leader waits for one of
      eight slots, and every request that holds one can work. */
  lemma NobodyWaitsInVain(states: seq<State>, i: nat, p: nat)
    requires Run(states) && i < |states| && PcOf(states[i], p).Waiting?
    ensures var s := states[i];
      || CanWork(s, p)
      || (PcOf(s, p).call in s.calls
          && var leader := s.calls[PcOf(s, p).call].leader;
             || CanWork(s, leader)
             || (PcOf(s, leader).WantSlot? && |s.slots| == RESOLVE_CONCURRENCY
                 && forall q | q in s.slots :: CanWork(s, q)))
  {
    RunInv(states, i);
    var s := states[i];
    var c := PcOf(s, p).call;
    assert PcOk(s, p);
    if s.calls[c].done {
      assert Step(s, p, Wake).Some?;
    } else {
      LeaderCanWork(s, s.calls[c].leader);
      forall q | q in s.slots ensures CanWork(s, q) {
        assert SlotOk(s, q);
        LeaderCanWork(s, q);
      }
    }
  }

  /** Steps a leader still has to take before its call is closed. */
  function StepsLeft(pc: Pc): nat {
    match pc
    case WantSlot(_, _) => 6
    case Probing(_, _) => 5
    case Releasing(_, _, _) => 4
    case Built(_, _, _) => 3
    case Recorded(_, _) => 2
    case Unregistered(_, _) => 1
    case _ => 0
  }

  lemma OthersStay(s: State, p: nat, a: Action, s': State, q: nat)
    requires Step(s, p, a) == Some(s') && p != q
    ensures PcOf(s', q) == PcOf(s, q)
  {
  }

  lemma LeaderStep(s: State, p: nat, a: Action, s': State)
    requires Step(s, p, a) == Some(s')
    requires Leads(PcOf(s, p)) || PcOf(s, p).Unregistered?
    ensures StepsLeft(PcOf(s', p)) < StepsLeft(PcOf(s, p))
    ensures StepsLeft(PcOf(s', p)) == 0 ==> Finished(s', PcOf(s, p).call)
  {
    assert a.GiveUp? || a.TakeSlot? || a.Probe? || a.ReleaseSlot? || a.Record? || a.Unregister? || a.CloseCall?;
  }

  /** Each step of a leader brings its call nearer to its close, at most six steps
      away; steps of others leave it where it is. */
  lemma LeaderAdvances(s: State, p: nat, a: Action, s': State, leader: nat)
    requires Step(s, p, a) == Some(s')
    requires Leads(PcOf(s, leader)) || PcOf(s, leader).Unregistered?
    ensures p == leader ==> StepsLeft(PcOf(s', leader)) < StepsLeft(PcOf(s, leader)) <= 6
    ensures p != leader ==> PcOf(s', leader) == PcOf(s, leader)
    ensures StepsLeft(PcOf(s', leader)) == 0 ==> Finished(s', PcOf(s, leader).call)
  {
    if p == leader {
      LeaderStep(s, p, a, s');
    } else {
      OthersStay(s, p, a, s', leader);
    }
  }
}
