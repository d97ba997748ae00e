/**
 The cache of resolved users: least recently used eviction, and an expiry that
 is fixed when an entry is put.
 */
module UserCache {
  import opened Wrappers

  type Hash = string

  datatype Entry = Entry(hash: Hash, userId: int, expiresAt: int)

  /******* The specification: one list, most recently used first *******/

  ghost predicate Distinct(list: seq<Entry>) {
    forall i, j | 0 <= i < j < |list| :: list[i].hash != list[j].hash
  }

  function Position(list: seq<Entry>, hash: Hash): (i: nat)
    ensures i <= |list|
    ensures i < |list| ==> list[i].hash == hash
    ensures forall k | 0 <= k < i :: list[k].hash != hash
  {
    if list == [] || list[0].hash == hash then 0 else 1 + Position(list[1..], hash)
  }

  predicate Has(list: seq<Entry>, hash: Hash) {
    Position(list, hash) < |list|
  }

  function Without(list: seq<Entry>, hash: Hash): seq<Entry> {
    var i := Position(list, hash);
    if i < |list| then list[..i] + list[i + 1..] else list
  }

  function GetList(list: seq<Entry>, hash: Hash, now: int): (seq<Entry>, Option<Entry>) {
    var i := Position(list, hash);
    if i == |list| then (list, None)
    else if now > list[i].expiresAt then (Without(list, hash), None)
    else ([list[i]] + Without(list, hash), Some(list[i]))
  }

  function Capacity(max: int): nat {
    if max < 0 then 0 else max
  }

  /** What stays, and what goes, when a new entry comes to the front. */
  function PutList(list: seq<Entry>, entry: Entry, now: int, ttl: int, max: int): (seq<Entry>, Entry, seq<Entry>) {
    var i := Position(list, entry.hash);
    if i < |list| then (list, list[i], [])
    else
      var kept := entry.(expiresAt := now + ttl);
      var longer := [kept] + list;
      if |longer| <= Capacity(max) then (longer, kept, [])
      else (longer[..Capacity(max)], kept, longer[Capacity(max)..])
  }

  function Reverse(ids: seq<int>): (r: seq<int>)
    ensures |r| == |ids|
  {
    if ids == [] then [] else Reverse(ids[1..]) + [ids[0]]
  }

  function UserIds(list: seq<Entry>): (r: seq<int>)
    ensures |r| == |list|
  {
    seq(|list|, i requires 0 <= i < |list| => list[i].userId)
  }

  /******* A map and a recency list of hashes stand for the list *******/

  ghost predicate Consistent(entries: map<Hash, Entry>, order: seq<Hash>) {
    && (forall i, j | 0 <= i < j < |order| :: order[i] != order[j])
    && (forall h :: h in entries <==> h in order)
    && (forall h | h in entries :: entries[h].hash == h)
  }

  ghost function ListOf(entries: map<Hash, Entry>, order: seq<Hash>): (r: seq<Entry>)
    requires Consistent(entries, order)
    ensures |r| == |order|
    ensures forall i | 0 <= i < |r| :: r[i].hash == order[i] && order[i] in entries && r[i] == entries[order[i]]
  {
    seq(|order|, i requires 0 <= i < |order| requires order[i] in entries => entries[order[i]])
  }

  lemma FoundAt(entries: map<Hash, Entry>, order: seq<Hash>, hash: Hash)
    requires Consistent(entries, order)
    ensures var list := ListOf(entries, order);
            && (Has(list, hash) <==> hash in entries)
            && (hash in entries ==> list[Position(list, hash)] == entries[hash])
            && (hash in entries ==> order[Position(list, hash)] == hash)
  {
    var list := ListOf(entries, order);
    if hash in entries {
      var i :| 0 <= i < |order| && order[i] == hash;
      assert list[i].hash == hash;
    }
  }

  lemma RestConsistent(entries: map<Hash, Entry>, order: seq<Hash>, i: nat)
    requires Consistent(entries, order) && i < |order|
    ensures Consistent(entries - {order[i]}, order[..i] + order[i + 1..])
  {
    var rest := order[..i] + order[i + 1..];
    assert forall k | 0 <= k < |rest| :: rest[k] == order[if k < i then k else k + 1];
    forall h ensures h in entries - {order[i]} <==> h in rest {
      if h in entries && h != order[i] {
        var k :| 0 <= k < |order| && order[k] == h;
        assert h == if k < i then rest[k] else rest[k - 1];
      }
      if h in rest {
        var k :| 0 <= k < |rest| && rest[k] == h;
        assert h == order[if k < i then k else k + 1];
      }
    }
  }

  /** Taking a hash out of the middle. */
  lemma CutOut(entries: map<Hash, Entry>, order: seq<Hash>, i: nat)
    requires Consistent(entries, order) && i < |order|
    ensures var rest := order[..i] + order[i + 1..];
            && Consistent(entries - {order[i]}, rest)
            && ListOf(entries - {order[i]}, rest) == Without(ListOf(entries, order), order[i])
  {
    RestConsistent(entries, order, i);
    RestList(entries, order, i);
    WithoutAt(entries, order, i);
  }

  lemma RestList(entries: map<Hash, Entry>, order: seq<Hash>, i: nat)
    requires Consistent(entries, order) && i < |order|
    requires Consistent(entries - {order[i]}, order[..i] + order[i + 1..])
    ensures var before := ListOf(entries, order);
      ListOf(entries - {order[i]}, order[..i] + order[i + 1..]) == before[..i] + before[i + 1..]
  {
    var rest := order[..i] + order[i + 1..];
    assert forall k | 0 <= k < |rest| :: rest[k] == order[if k < i then k else k + 1];
  }

  lemma WithoutAt(entries: map<Hash, Entry>, order: seq<Hash>, i: nat)
    requires Consistent(entries, order) && i < |order|
    ensures var before := ListOf(entries, order);
      Without(before, order[i]) == before[..i] + before[i + 1..]
  {
    FoundAt(entries, order, order[i]);
  }

  lemma PushFront(entries: map<Hash, Entry>, order: seq<Hash>, entry: Entry)
    requires Consistent(entries, order) && entry.hash !in entries
    ensures Consistent(entries[entry.hash := entry], [entry.hash] + order)
    ensures ListOf(entries[entry.hash := entry], [entry.hash] + order) == [entry] + ListOf(entries, order)
  {
  }

  lemma PopBack(entries: map<Hash, Entry>, order: seq<Hash>)
    requires Consistent(entries, order) && order != []
    ensures var last := |order| - 1;
            && Consistent(entries - {order[last]}, order[..last])
            && ListOf(entries - {order[last]}, order[..last]) == ListOf(entries, order)[..last]
  {
    var last := |order| - 1;
    forall h ensures h in entries - {order[last]} <==> h in order[..last] {
      assert h in order <==> h in order[..last] || h == order[last];
    }
  }

  /** Moving a hash to the front. */
  lemma ToFront(entries: map<Hash, Entry>, order: seq<Hash>, i: nat)
    requires Consistent(entries, order) && i < |order|
    ensures var moved := [order[i]] + order[..i] + order[i + 1..];
            && Consistent(entries, moved)
            && ListOf(entries, moved) == [entries[order[i]]] + Without(ListOf(entries, order), order[i])
  {
    var rest := order[..i] + order[i + 1..];
    var hash := order[i];
    CutOut(entries, order, i);
    PushFront(entries - {hash}, rest, entries[hash]);
    assert (entries - {hash})[hash := entries[hash]] == entries;
    assert [hash] + rest == [order[i]] + order[..i] + order[i + 1..];
  }

  lemma SameSize(entries: map<Hash, Entry>, order: seq<Hash>)
    requires Consistent(entries, order)
    ensures |entries| == |order|
    decreases |order|
  {
    if order == [] {
      assert entries.Keys == {};
    } else {
      PopBack(entries, order);
      SameSize(entries - {order[|order| - 1]}, order[..|order| - 1]);
      assert entries.Keys == (entries - {order[|order| - 1]}).Keys + {order[|order| - 1]};
    }
  }

  /******* The cache itself *******/

  class Cache {
    const max: int
    const ttl: int
    var entries: map<Hash, Entry>
    var order: seq<Hash>

    ghost predicate Valid()
      reads this
    {
      Consistent(entries, order)
    }

    ghost function List(): seq<Entry>
      requires Valid()
      reads this
    {
      ListOf(entries, order)
    }

    constructor (max: int, ttl: int)
      ensures Valid() && List() == [] && this.max == max && this.ttl == ttl
    {
      this.max, this.ttl := max, ttl;
      entries, order := map[], [];
    }

    /** The element of the recency list that holds the hash. */
    method Find(hash: Hash) returns (i: nat)
      requires Valid() && hash in entries
      ensures i < |order| && order[i] == hash
    {
      i := 0;
      while order[i] != hash
        invariant 0 <= i < |order|
        invariant forall k | 0 <= k < i :: order[k] != hash
        decreases |order| - i
      {
        i := i + 1;
      }
    }

    /** remove */
    method Remove(hash: Hash)
      requires Valid() && hash in entries
      modifies this
      ensures Valid() && List() == Without(old(List()), hash)
    {
      var i := Find(hash);
      CutOut(entries, order, i);
      order := order[..i] + order[i + 1..];
      entries := entries - {hash};
    }

    /** get: a hit moves the entry to the front and leaves its expiry alone. */
    method Get(hash: Hash, now: int) returns (r: Option<Entry>)
      requires Valid()
      modifies this
      ensures Valid() && (List(), r) == GetList(old(List()), hash, now)
    {
      FoundAt(entries, order, hash);
      if hash !in entries {
        return None;
      }
      var entry := entries[hash];
      if now > entry.expiresAt {
        Remove(hash);
        return None;
      }
      var i := Find(hash);
      ToFront(entries, order, i);
      order := [order[i]] + order[..i] + order[i + 1..];
      return Some(entry);
    }

    /** put: an entry that is already there wins and keeps its place. */
    method Put(entry: Entry, now: int) returns (kept: Entry, evicted: seq<int>)
      requires Valid()
      modifies this
      ensures Valid()
      ensures var (list, stays, gone) := PutList(old(List()), entry, now, ttl, max);
              List() == list && kept == stays && evicted == Reverse(UserIds(gone))
    {
      FoundAt(entries, order, entry.hash);
      if entry.hash in entries {
        return entries[entry.hash], [];
      }
      kept := entry.(expiresAt := now + ttl);
      ghost var longer := [kept] + List();
      PushFront(entries, order, kept);
      order := [entry.hash] + order;
      entries := entries[entry.hash := kept];
      evicted := EvictOldest(longer);
    }

    /** The loop of put: entries leave from the back while there are too many. */
    method EvictOldest(ghost longer: seq<Entry>) returns (evicted: seq<int>)
      requires Valid() && List() == longer
      modifies this
      ensures Valid()
      ensures |longer| <= Capacity(max) ==> List() == longer && evicted == []
      ensures |longer| > Capacity(max) ==>
                List() == longer[..Capacity(max)] && evicted == Reverse(UserIds(longer[Capacity(max)..]))
    {
      evicted := [];
      SameSize(entries, order);
      while |entries| > max
        invariant |order| == |entries|
        invariant Shortened(max, entries, order, longer, evicted)
        decreases |order|
      {
        if order == [] {
          break;
        }
        var last := |order| - 1;
        var removed := entries[order[last]];
        EvictOne(max, entries, order, longer, evicted);
        entries := entries - {order[last]};
        order := order[..last];
        SameSize(entries, order);
        evicted := evicted + [removed.userId];
      }
      EvictionEnds(max, entries, order, longer, evicted);
    }

    /** invalidate */
    method Invalidate(hash: Hash)
      requires Valid()
      modifies this
      ensures Valid() && List() == Without(old(List()), hash)
    {
      FoundAt(entries, order, hash);
      if hash in entries {
        Remove(hash);
      }
    }
  }

  /** One turn of the loop. */
  lemma Evicted(entries: map<Hash, Entry>, order: seq<Hash>, longer: seq<Entry>)
    requires Consistent(entries, order) && 0 < |order| <= |longer|
    requires ListOf(entries, order) == longer[..|order|]
    ensures var last := |order| - 1;
            && Consistent(entries - {order[last]}, order[..last])
            && ListOf(entries - {order[last]}, order[..last]) == longer[..last]
            && Reverse(UserIds(longer[last..])) ==
               Reverse(UserIds(longer[last + 1..])) + [entries[order[last]].userId]
  {
    var last := |order| - 1;
    PopBack(entries, order);
    assert longer[..last + 1][..last] == longer[..last];
    assert ListOf(entries, order)[last] == longer[last];
    assert longer[last..] == [longer[last]] + longer[last + 1..];
    assert UserIds(longer[last..]) == [longer[last].userId] + UserIds(longer[last + 1..]);
  }

  /** So far the entries from the back of the longer list have left, in that order. */
  ghost predicate Shortened(max: int, entries: map<Hash, Entry>, order: seq<Hash>, longer: seq<Entry>, evicted: seq<int>) {
    && Consistent(entries, order)
    && |order| <= |longer| && ListOf(entries, order) == longer[..|order|]
    && (|order| >= Capacity(max) || |order| == |longer|)
    && evicted == Reverse(UserIds(longer[|order|..]))
  }

  lemma EvictOne(max: int, entries: map<Hash, Entry>, order: seq<Hash>, longer: seq<Entry>, evicted: seq<int>)
    requires Shortened(max, entries, order, longer, evicted) && |order| > 0 && |order| > max
    ensures var last := |order| - 1;
      order[last] in entries &&
      Shortened(max, entries - {order[last]}, order[..last], longer, evicted + [entries[order[last]].userId])
  {
    Evicted(entries, order, longer);
  }

  lemma EvictionEnds(max: int, entries: map<Hash, Entry>, order: seq<Hash>, longer: seq<Entry>, evicted: seq<int>)
    requires Shortened(max, entries, order, longer, evicted) && (|order| <= max || order == [])
    ensures Consistent(entries, order)
    ensures |longer| <= Capacity(max) ==> ListOf(entries, order) == longer && evicted == []
    ensures |longer| > Capacity(max) ==>
      ListOf(entries, order) == longer[..Capacity(max)] && evicted == Reverse(UserIds(longer[Capacity(max)..]))
  {
    assert longer[|longer|..] == [] && longer[..|longer|] == longer;
  }
}
