/**
 Token resolution under concurrency: requests for the same token share one
 probe, and a semaphore bounds the probes. Every locked section, channel
 operation and deferred call is one atomic step.
 */
module SingleFlight {
  import opened Wrappers

  const RESOLVE_CONCURRENCY := 8

  type Hash = nat

  /** What a resolution ends with. */
  datatype Outcome = User(id: nat) | Rejected | OtherError(code: nat) | Canceled

  /** One buildCall. The request that made it is its leader. */
  datatype Call = Call(hash: Hash, leader: nat, outcome: Option<Outcome>, done: bool)

  /** Where a request is. `call` names the buildCall it leads or waits for. */
  datatype Pc =
    | Idle
    | Looking(hash: Hash)
    | CheckingInvalid(hash: Hash)
    | Registering(hash: Hash)
    | Waiting(hash: Hash, call: nat)
    | WantSlot(hash: Hash, call: nat)
    | Probing(hash: Hash, call: nat)
    | Releasing(hash: Hash, call: nat, outcome: Outcome)
    | Built(hash: Hash, call: nat, outcome: Outcome)
    | Recorded(hash: Hash, call: nat)
    | Unregistered(hash: Hash, call: nat)
    | Returned(hash: Hash, outcome: Outcome, via: Via)

  /** How a request came by its result. */
  datatype Via = FromCache | FromInvalid | Led(call: nat) | Waited(call: nat) | GaveUp(call: nat)

  datatype State = State(
    pcs: map<nat, Pc>,
    users: map<Hash, nat>,
    invalid: set<Hash>,
    builds: map<Hash, nat>,
    calls: map<nat, Call>,
    slots: set<nat>,
    nextCall: nat)

  datatype Action =
    | Start(hash: Hash)
    | Lookup
    | CheckInvalid
    | Register
    | Wake
    | GiveUp
    | TakeSlot
    | Probe(outcome: Outcome, users: map<Hash, nat>, invalid: set<Hash>)
    | ReleaseSlot
    | Record
    | Unregister
    | CloseCall
    | Finish

  function PcOf(s: State, p: nat): Pc {
    if p in s.pcs then s.pcs[p] else Idle
  }

  function Move(s: State, p: nat, pc: Pc): State {
    s.(pcs := s.pcs[p := pc])
  }

  /** get and has; an expired entry or mark can be gone at any time. */
  function LookStep(s: State, p: nat): Option<State> {
    match PcOf(s, p)
    case Looking(h) =>
      if h in s.users then Some(Move(s, p, Returned(h, User(s.users[h]), FromCache)))
      else Some(Move(s, p, CheckingInvalid(h)))
    case CheckingInvalid(h) =>
      if h in s.invalid then Some(Move(s, p, Returned(h, Rejected, FromInvalid)))
      else Some(Move(s, p, Registering(h)))
    case _ => None
  }

  /** The section under buildsMu: join the call in flight, or lead a new one. */
  function RegisterStep(s: State, p: nat): Option<State> {
    match PcOf(s, p)
    case Registering(h) =>
      if h in s.builds then Some(Move(s, p, Waiting(h, s.builds[h])))
      else
        var made := s.(builds := s.builds[h := s.nextCall],
                       calls := s.calls[s.nextCall := Call(h, p, None, false)],
                       nextCall := s.nextCall + 1);
        Some(Move(made, p, WantSlot(h, s.nextCall)))
    case _ => None
  }

  /** The channel is closed: the waiter takes the call's result. */
  function WakeStep(s: State, p: nat): Option<State> {
    match PcOf(s, p)
    case Waiting(h, c) =>
      if c in s.calls && s.calls[c].done && s.calls[c].outcome.Some?
      then Some(Move(s, p, Returned(h, s.calls[c].outcome.value, Waited(c)))) else None
    case _ => None
  }

  /** The context of the request ends while it waits for a call or a slot. */
  function GiveUpStep(s: State, p: nat): Option<State> {
    match PcOf(s, p)
    case Waiting(h, c) => Some(Move(s, p, Returned(h, Canceled, GaveUp(c))))
    case WantSlot(h, c) => Some(Move(s, p, Built(h, c, Canceled)))
    case _ => None
  }

  /** buildUser: take a slot, probe, give the slot back. The probe may change
      both caches in any way. */
  function BuildStep(s: State, p: nat, a: Action): Option<State> {
    match (a, PcOf(s, p))
    case (TakeSlot, WantSlot(h, c)) =>
      if |s.slots| < RESOLVE_CONCURRENCY then Some(Move(s.(slots := s.slots + {p}), p, Probing(h, c))) else None
    case (Probe(outcome, users, invalid), Probing(h, c)) =>
      Some(Move(s.(users := users, invalid := invalid), p, Releasing(h, c, outcome)))
    case (ReleaseSlot, Releasing(h, c, outcome)) =>
      Some(Move(s.(slots := s.slots - {p}), p, Built(h, c, outcome)))
    case _ => None
  }

  /** The end of resolve: assign the result, delete the registration, close the channel. */
  function EndStep(s: State, p: nat, a: Action): Option<State> {
    match (a, PcOf(s, p))
    case (Record, Built(h, c, outcome)) =>
      if c in s.calls
      then Some(Move(s.(calls := s.calls[c := s.calls[c].(outcome := Some(outcome))]), p, Recorded(h, c))) else None
    case (Unregister, Recorded(h, c)) =>
      Some(Move(s.(builds := s.builds - {h}), p, Unregistered(h, c)))
    case (CloseCall, Unregistered(h, c)) =>
      if c in s.calls && s.calls[c].outcome.Some?
      then
        var closed := s.(calls := s.calls[c := s.calls[c].(done := true)]);
        Some(Move(closed, p, Returned(h, s.calls[c].outcome.value, Led(c))))
      else None
    case _ => None
  }

  function Step(s: State, p: nat, a: Action): Option<State> {
    match a
    case Start(h) => if PcOf(s, p).Idle? then Some(Move(s, p, Looking(h))) else None
    case Lookup => if PcOf(s, p).Looking? then LookStep(s, p) else None
    case CheckInvalid => if PcOf(s, p).CheckingInvalid? then LookStep(s, p) else None
    case Register => RegisterStep(s, p)
    case Wake => WakeStep(s, p)
    case GiveUp => GiveUpStep(s, p)
    case Finish => if PcOf(s, p).Returned? then Some(Move(s, p, Idle)) else None
    case _ =>
      if a.TakeSlot? || a.Probe? || a.ReleaseSlot? then BuildStep(s, p, a) else EndStep(s, p, a)
  }

  /** Entries and marks expire, are invalidated, or are reset, independently of any request. */
  function Forget(s: State, users: set<Hash>, invalid: set<Hash>): State {
    s.(users := s.users - users, invalid := s.invalid - invalid)
  }

  /** A client that is refused later takes its user out and marks its token, at any time and
      outside any resolution; a full set of marks is emptied first, which is a Forget. */
  function Reject(s: State, h: Hash): State {
    s.(users := s.users - {h}, invalid := s.invalid + {h})
  }

  ghost predicate Next(s: State, s': State) {
    || (exists p: nat, a :: Step(s, p, a) == Some(s'))
    || (exists users, invalid :: s' == Forget(s, users, invalid))
    || (exists h: Hash :: s' == Reject(s, h))
  }

  ghost predicate Init(s: State) {
    s.pcs == map[] && s.builds == map[] && s.calls == map[] && s.slots == {} && s.nextCall == 0
  }

  ghost predicate Linked(states: seq<State>, i: nat)
    requires 0 < i < |states|
  {
    Next(states[i - 1], states[i])
  }

  ghost predicate Run(states: seq<State>) {
    |states| > 0 && Init(states[0]) && forall i | 0 < i < |states| :: Linked(states, i)
  }

  /******* The invariant *******/

  /** The request leads a call that is still registered. */
  predicate Leads(pc: Pc) {
    pc.WantSlot? || pc.Probing? || pc.Releasing? || pc.Built? || pc.Recorded?
  }

  predicate HoldsSlot(pc: Pc) {
    pc.Probing? || pc.Releasing?
  }

  /** The call exists, is for this hash, and is led by p. */
  ghost predicate Owns(s: State, p: nat, h: Hash, c: nat) {
    c in s.calls && s.calls[c].hash == h && s.calls[c].leader == p
  }

  ghost predicate PcOk(s: State, p: nat) {
    var pc := PcOf(s, p);
    if Leads(pc) then
      && Owns(s, p, pc.hash, pc.call) && !s.calls[pc.call].done
      && pc.hash in s.builds && s.builds[pc.hash] == pc.call
      && (pc.Recorded? ==> s.calls[pc.call].outcome.Some?)
    else if pc.Unregistered? then
      Owns(s, p, pc.hash, pc.call) && !s.calls[pc.call].done && s.calls[pc.call].outcome.Some?
    else if pc.Waiting? then
      pc.call in s.calls && s.calls[pc.call].hash == pc.hash
    else if pc.Returned? then
      ResultOk(s, p, pc)
    else true
  }

  /** A leader's and a waiter's result is that of the finished call for their hash. */
  ghost predicate ResultOk(s: State, p: nat, pc: Pc)
    requires pc.Returned?
  {
    if pc.via.Led? then
      Owns(s, p, pc.hash, pc.via.call) && s.calls[pc.via.call].done && s.calls[pc.via.call].outcome == Some(pc.outcome)
    else if pc.via.Waited? then
      && pc.via.call in s.calls && s.calls[pc.via.call].hash == pc.hash
      && s.calls[pc.via.call].done && s.calls[pc.via.call].outcome == Some(pc.outcome)
    else if pc.via.GaveUp? then pc.outcome == Canceled
    else if pc.via.FromInvalid? then pc.outcome == Rejected
    else pc.outcome.User?
  }

  ghost predicate PcsOk(s: State) {
    forall p: nat {:trigger PcOf(s, p)} :: PcOk(s, p)
  }

  /** A registered call is in flight: its leader is at work on it. */
  ghost predicate BuildsOk(s: State) {
    forall h | h in s.builds ::
      && s.builds[h] in s.calls
      && var call := s.calls[s.builds[h]];
         call.hash == h && Leads(PcOf(s, call.leader)) && PcOf(s, call.leader).call == s.builds[h]
  }

  /** A call that is not closed has a leader that will close it. */
  ghost predicate CallsOk(s: State) {
    forall c | c in s.calls ::
      && c < s.nextCall
      && var pc := PcOf(s, s.calls[c].leader);
         if s.calls[c].done then s.calls[c].outcome.Some?
         else (Leads(pc) || pc.Unregistered?) && pc.call == c
  }

  predicate SlotOk(s: State, p: nat) {
    HoldsSlot(PcOf(s, p)) <==> p in s.slots
  }

  ghost predicate SlotsOk(s: State) {
    |s.slots| <= RESOLVE_CONCURRENCY && forall p: nat {:trigger PcOf(s, p)} :: SlotOk(s, p)
  }

  ghost predicate Inv(s: State) {
    PcsOk(s) && BuildsOk(s) && CallsOk(s) && SlotsOk(s)
  }
}
