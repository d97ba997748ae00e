/**
 The user cache over whole histories of calls.
 */
module UserHistory {
  import opened Wrappers
  import opened UserCache

  datatype Op = DoGet(hash: Hash, now: int) | DoPut(entry: Entry, now: int) | DoInvalidate(hash: Hash)

  function Apply(list: seq<Entry>, op: Op, max: int, ttl: int): seq<Entry> {
    match op
    case DoGet(hash, now) => GetList(list, hash, now).0
    case DoPut(entry, now) => PutList(list, entry, now, ttl, max).0
    case DoInvalidate(hash) => Without(list, hash)
  }

  function After(ops: seq<Op>, max: int, ttl: int): seq<Entry> {
    if ops == [] then [] else Apply(After(ops[..|ops| - 1], max, ttl), ops[|ops| - 1], max, ttl)
  }

  /** The call uses the entry: a get that hits, or the put that inserts it. */
  predicate Uses(list: seq<Entry>, op: Op, hash: Hash) {
    match op
    case DoGet(h, now) => h == hash && GetList(list, h, now).1.Some?
    case DoPut(entry, _) => entry.hash == hash && !Has(list, hash)
    case DoInvalidate(_) => false
  }

  /** The position of the last call that used the hash, or -1. */
  function LastUse(ops: seq<Op>, hash: Hash, max: int, ttl: int): (i: int)
    ensures -1 <= i < |ops|
  {
    if ops == [] then -1
    else if Uses(After(ops[..|ops| - 1], max, ttl), ops[|ops| - 1], hash) then |ops| - 1
    else LastUse(ops[..|ops| - 1], hash, max, ttl)
  }

  /** The list holds distinct hashes, no more than fit, ordered by their last use. */
  ghost predicate Recent(ops: seq<Op>, list: seq<Entry>, max: int, ttl: int) {
    && Distinct(list)
    && |list| <= Capacity(max)
    && forall i, j | 0 <= i < j < |list| ::
         LastUse(ops, list[i].hash, max, ttl) > LastUse(ops, list[j].hash, max, ttl)
  }

  /** The shorter list is what the longer one keeps after a cut at i. */
  lemma CutAt(list: seq<Entry>, hash: Hash)
    requires Distinct(list)
    ensures var rest := Without(list, hash);
            && |rest| == (if Has(list, hash) then |list| - 1 else |list|)
            && (forall k | 0 <= k < |rest| :: rest[k] == list[if k < Position(list, hash) then k else k + 1])
            && (forall k | 0 <= k < |rest| :: rest[k].hash != hash)
  {
    var rest, cut := Without(list, hash), Position(list, hash);
    forall k | 0 <= k < |rest| ensures rest[k].hash != hash {
      assert rest[k] == list[if k < cut then k else k + 1];
      assert k >= cut ==> list[cut].hash != list[k + 1].hash;
    }
  }

  lemma LastUseStep(ops: seq<Op>, op: Op, hash: Hash, max: int, ttl: int)
    ensures LastUse(ops + [op], hash, max, ttl) ==
            if Uses(After(ops, max, ttl), op, hash) then |ops| else LastUse(ops, hash, max, ttl)
    ensures After(ops + [op], max, ttl) == Apply(After(ops, max, ttl), op, max, ttl)
  {
    assert (ops + [op])[..|ops|] == ops;
  }

  /** The list after one more call: at most one entry that the call used, and
      behind it entries of the list before, in the order they had. */
  ghost predicate Shifts(before: seq<Entry>, after: seq<Entry>, op: Op, used: nat) {
    && used <= 1 && used <= |after|
    && (forall j | 0 <= j < used :: Uses(before, op, after[j].hash))
    && (forall j | used <= j < |after| ::
          !Uses(before, op, after[j].hash) && Position(before, after[j].hash) < |before|)
    && (forall i, j | used <= i < j < |after| ::
          Position(before, after[i].hash) < Position(before, after[j].hash))
  }

  lemma PositionOfOwn(list: seq<Entry>, i: nat)
    requires Distinct(list) && i < |list|
    ensures Position(list, list[i].hash) == i
  {
  }

  lemma WithoutShifts(before: seq<Entry>, op: Op, hash: Hash)
    requires Distinct(before) && forall h | h != hash :: !Uses(before, op, h)
    ensures Shifts(before, Without(before, hash), op, 0)
  {
    CutAt(before, hash);
    var rest := Without(before, hash);
    var cut := Position(before, hash);
    forall k | 0 <= k < |rest| ensures Position(before, rest[k].hash) == if k < cut then k else k + 1 {
      PositionOfOwn(before, if k < cut then k else k + 1);
    }
  }

  lemma FrontShifts(before: seq<Entry>, after: seq<Entry>, op: Op, e: Entry)
    requires Shifts(before, after, op, 0) && Uses(before, op, e.hash)
    ensures Shifts(before, [e] + after, op, 1)
  {
  }

  lemma GetShifts(before: seq<Entry>, hash: Hash, now: int) returns (used: nat)
    requires Distinct(before)
    ensures Shifts(before, GetList(before, hash, now).0, DoGet(hash, now), used)
  {
    var op := DoGet(hash, now);
    WithoutShifts(before, op, hash);
    var i := Position(before, hash);
    used := 0;
    if i < |before| && now <= before[i].expiresAt {
      FrontShifts(before, Without(before, hash), op, before[i]);
      used := 1;
    }
  }

  lemma PutShifts(before: seq<Entry>, entry: Entry, now: int, max: int, ttl: int) returns (used: nat)
    requires Distinct(before)
    ensures Shifts(before, PutList(before, entry, now, ttl, max).0, DoPut(entry, now), used)
  {
    var op := DoPut(entry, now);
    if Has(before, entry.hash) {
      forall k | 0 <= k < |before| ensures Position(before, before[k].hash) == k {
        PositionOfOwn(before, k);
      }
      return 0;
    }
    WithoutShifts(before, op, entry.hash);
    assert Without(before, entry.hash) == before;
    FrontShifts(before, before, op, entry.(expiresAt := now + ttl));
    return if Capacity(max) == 0 then 0 else 1;
  }

  /** Every call keeps the order of last use. */
  lemma ShiftKeepsOrder(ops: seq<Op>, op: Op, after: seq<Entry>, used: nat, max: int, ttl: int)
    requires Recent(ops, After(ops, max, ttl), max, ttl)
    requires Shifts(After(ops, max, ttl), after, op, used) && |after| <= Capacity(max)
    ensures Recent(ops + [op], after, max, ttl)
  {
    forall i, j | 0 <= i < j < |after|
      ensures LastUse(ops + [op], after[i].hash, max, ttl) > LastUse(ops + [op], after[j].hash, max, ttl)
    {
      LastUseStep(ops, op, after[i].hash, max, ttl);
      LastUseStep(ops, op, after[j].hash, max, ttl);
    }
  }

  lemma ApplyShifts(list: seq<Entry>, op: Op, max: int, ttl: int) returns (used: nat)
    requires Distinct(list) && |list| <= Capacity(max)
    ensures Shifts(list, Apply(list, op, max, ttl), op, used) && |Apply(list, op, max, ttl)| <= Capacity(max)
  {
    match op
    case DoGet(hash, now) =>
      used := GetShifts(list, hash, now);
      CutAt(list, hash);
    case DoPut(entry, now) =>
      used := PutShifts(list, entry, now, max, ttl);
    case DoInvalidate(hash) =>
      WithoutShifts(list, op, hash);
      CutAt(list, hash);
      used := 0;
  }

  /** The whole cache is a function of the history: its order is the order of last use. */
  lemma {:induction false} OrderIsLastUse(ops: seq<Op>, max: int, ttl: int)
    ensures Recent(ops, After(ops, max, ttl), max, ttl)
  {
    if ops != [] {
      var earlier, op := ops[..|ops| - 1], ops[|ops| - 1];
      OrderIsLastUse(earlier, max, ttl);
      var used := ApplyShifts(After(earlier, max, ttl), op, max, ttl);
      assert ops == earlier + [op];
      ShiftKeepsOrder(earlier, op, After(ops, max, ttl), used, max, ttl);
    }
  }

  /** A put evicts only entries used less recently than every entry it leaves,
      at most one of them, and never the new entry unless nothing fits at all. */
  lemma VictimIsLeastRecentlyUsed(ops: seq<Op>, entry: Entry, now: int, max: int, ttl: int)
    ensures var list := After(ops, max, ttl);
            var (after, kept, gone) := PutList(list, entry, now, ttl, max);
            && |after| <= Capacity(max)
            && |gone| <= 1
            && (forall v, e | v in gone && e in after ::
                  e == kept || LastUse(ops, e.hash, max, ttl) > LastUse(ops, v.hash, max, ttl))
            && (Has(list, entry.hash) ==> gone == [] && after == list)
            && (!Has(list, entry.hash) ==> (kept in after <==> max >= 1))
  {
    OrderIsLastUse(ops, max, ttl);
    var list := After(ops, max, ttl);
    if !Has(list, entry.hash) && |list| >= Capacity(max) {
      CutsLast(ops, list, entry.(expiresAt := now + ttl), max, ttl);
    }
  }

  /** Putting an entry in front of a full list and cutting what is too much drops the last one. */
  lemma CutsLast(ops: seq<Op>, list: seq<Entry>, kept: Entry, max: int, ttl: int)
    requires Recent(ops, list, max, ttl) && |list| == Capacity(max)
    ensures var longer := [kept] + list;
      && |longer[Capacity(max)..]| == 1
      && (max >= 1 ==> longer[..Capacity(max)][0] == kept && longer[Capacity(max)..][0] == list[|list| - 1])
      && (forall e | e in longer[..Capacity(max)] && e != kept ::
            LastUse(ops, e.hash, max, ttl) > LastUse(ops, longer[Capacity(max)..][0].hash, max, ttl))
  {
    var n := Capacity(max);
    var longer := [kept] + list;
    forall e | e in longer[..n] && e != kept
      ensures LastUse(ops, e.hash, max, ttl) > LastUse(ops, longer[n..][0].hash, max, ttl)
    {
      var i :| 0 < i < n && longer[i] == e;
      assert list[i - 1] == e && longer[n] == list[n - 1];
    }
  }

  /** Every entry was put, and still expires when that put said. */
  lemma {:induction false} ExpiryIsFixed(ops: seq<Op>, max: int, ttl: int, e: Entry) returns (i: nat)
    requires e in After(ops, max, ttl)
    ensures i < |ops| && ops[i].DoPut? && e == ops[i].entry.(expiresAt := ops[i].now + ttl)
  {
    var earlier, op := ops[..|ops| - 1], ops[|ops| - 1];
    var list := After(earlier, max, ttl);
    if e in list {
      i := ExpiryIsFixed(earlier, max, ttl, e);
    } else {
      i := |ops| - 1;
    }
  }

  /** get never returns an entry later than its put time plus the TTL. */
  lemma GetIsFresh(ops: seq<Op>, max: int, ttl: int, hash: Hash, now: int) returns (i: nat)
    requires GetList(After(ops, max, ttl), hash, now).1.Some?
    ensures i < |ops| && ops[i].DoPut? && ops[i].entry.hash == hash && now <= ops[i].now + ttl
    ensures GetList(After(ops, max, ttl), hash, now).1.value == ops[i].entry.(expiresAt := ops[i].now + ttl)
  {
    var list := After(ops, max, ttl);
    i := ExpiryIsFixed(ops, max, ttl, list[Position(list, hash)]);
  }

  /******* Rejected tokens *******/

  /** invalidTokens: a bounded set of rejected tokens, forgotten all at once when full. */
  class InvalidTokens {
    const capacity: int
    const ttl: int
    var entries: map<Hash, int>

    constructor (capacity: int, ttl: int)
      ensures this.capacity == capacity && this.ttl == ttl && entries == map[]
    {
      this.capacity, this.ttl := capacity, ttl;
      entries := map[];
    }

    /** has: an expired mark is dropped on the way. */
    method Has(hash: Hash, now: int) returns (r: bool)
      modifies this
      ensures r <==> hash in old(entries) && now <= old(entries)[hash]
      ensures entries == if hash in old(entries) && !r then old(entries) - {hash} else old(entries)
    {
      if hash !in entries {
        return false;
      }
      if now > entries[hash] {
        entries := entries - {hash};
        return false;
      }
      return true;
    }

    /** add */
    method Add(hash: Hash, now: int)
      modifies this
      ensures entries == (if |old(entries)| >= capacity then map[] else old(entries))[hash := now + ttl]
      ensures |old(entries)| <= (if capacity < 1 then 1 else capacity) ==>
                |entries| <= (if capacity < 1 then 1 else capacity)
    {
      if |entries| >= capacity {
        entries := map[];
      }
      entries := entries[hash := now + ttl];
    }
  }
}
