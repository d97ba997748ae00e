/**
 The books a budget keeps: what lies on the disk, and how much it knows to be
 free. Every operation under the writer lock is one step of these books, and
 the limit holds over every run of them.
 */
module Quota {
  import opened DiskTree

  datatype Book = Book(maxBytes: int, files: map<Path, nat>, ready: bool, free: int)

  /** What Reserve does, whichever entries it has to evict on the way. */
  ghost predicate Reserved(b: Book, b': Book, growth: nat, ok: bool) {
    && b'.maxBytes == b.maxBytes
    && if b.maxBytes <= 0 then ok && b' == b
       else if b.ready && growth <= b.free then ok && b' == b.(free := b.free - growth)
       else
         && (exists gone: set<Path> :: b'.files == Outside(b.files, gone))
         && if ok then b'.ready && b'.free >= 0 && b'.free == b.maxBytes - Bytes(b'.files) - growth
            else b'.ready == b.ready && b'.free == b.free
  }

  /** A reservation that succeeds, and a change of files that stays within it. */
  ghost predicate Charged(b: Book, b': Book, growth: nat) {
    exists mid: Book :: Reserved(b, mid, growth, true) && Spends(mid, b', growth)
  }

  ghost predicate Spends(b: Book, b': Book, growth: nat) {
    b' == b.(files := b'.files) && Bytes(b'.files) <= Bytes(b.files) + growth
  }

  /** One step: a charged change, a refused one, or a change that adds nothing. */
  ghost predicate Step(b: Book, b': Book) {
    || (exists growth: nat :: Charged(b, b', growth))
    || (exists growth: nat :: Reserved(b, b', growth, false))
    || Spends(b, b', 0)
  }

  /** What is used and what is known to be free never exceed the limit together. */
  ghost predicate Backed(b: Book) {
    b.maxBytes > 0 && b.ready ==> b.free >= 0 && Bytes(b.files) + b.free <= b.maxBytes
  }

  ghost predicate Sound(b: Book) {
    Backed(b) && (b.maxBytes > 0 ==> Bytes(b.files) <= b.maxBytes)
  }

  /** A granted reservation is backed together with the growth it promises. */
  lemma ReservedKeepsBacked(b: Book, b': Book, growth: nat, ok: bool)
    requires Backed(b) && Reserved(b, b', growth, ok)
    ensures Backed(b') && Bytes(b'.files) <= Bytes(b.files)
    ensures ok && b.maxBytes > 0 ==> b'.ready && b'.free >= 0 && Bytes(b'.files) + b'.free + growth <= b'.maxBytes
  {
    if gone: set<Path> :| b'.files == Outside(b.files, gone) {
      OutsideShrinks(b.files, gone);
    }
  }

  lemma ReservedKeepsSound(b: Book, b': Book, growth: nat, ok: bool)
    requires Sound(b) && Reserved(b, b', growth, ok)
    ensures Sound(b')
    ensures ok && b.maxBytes > 0 ==> b'.ready && Bytes(b'.files) + b'.free + growth <= b'.maxBytes
  {
    ReservedKeepsBacked(b, b', growth, ok);
  }

  lemma StepKeepsSound(b: Book, b': Book)
    requires Sound(b) && Step(b, b')
    ensures Sound(b')
  {
    if growth: nat :| Charged(b, b', growth) {
      var mid: Book :| Reserved(b, mid, growth, true) && Spends(mid, b', growth);
      ReservedKeepsSound(b, mid, growth, true);
    } else if growth: nat :| Reserved(b, b', growth, false) {
      ReservedKeepsSound(b, b', growth, false);
    }
  }

  ghost predicate Linked(books: seq<Book>, i: nat)
    requires 0 < i < |books|
  {
    Step(books[i - 1], books[i])
  }

  /** Once room has been made, the limit holds in every state of every run,
      through evictions and refused reservations. */
  lemma {:induction false} QuotaOverRuns(books: seq<Book>, i: nat)
    requires i < |books|
    requires books[0].maxBytes > 0 && !books[0].ready && Bytes(books[0].files) <= books[0].maxBytes
    requires forall k | 0 < k < |books| :: Linked(books, k)
    ensures Sound(books[i]) && books[i].maxBytes == books[0].maxBytes
    ensures Bytes(books[i].files) <= books[0].maxBytes
  {
    if i > 0 {
      QuotaOverRuns(books, i - 1);
      assert Linked(books, i);
      StepKeepsSound(books[i - 1], books[i]);
    }
  }

  /******* The states of a disk *******/

  /** One change left the disk within the limit, or no larger than before. */
  ghost predicate Modest(b: seq<map<Path, nat>>, k: nat, limit: nat)
    requires 0 < k < |b|
  {
    Bytes(b[k]) <= limit || Bytes(b[k]) <= Bytes(b[k - 1])
  }

  /** The later record continues the earlier one by such changes. */
  ghost predicate Extends(a: seq<map<Path, nat>>, b: seq<map<Path, nat>>, limit: nat) {
    && 0 < |a| <= |b| && b[..|a|] == a
    && forall k | |a| <= k < |b| :: Modest(b, k, limit)
  }

  lemma ExtendsItself(a: seq<map<Path, nat>>, limit: nat)
    requires |a| > 0
    ensures Extends(a, a, limit)
  {
  }

  lemma ExtendsOne(a: seq<map<Path, nat>>, files: map<Path, nat>, limit: nat)
    requires |a| > 0 && (Bytes(files) <= limit || Bytes(files) <= Bytes(a[|a| - 1]))
    ensures Extends(a, a + [files], limit)
  {
    assert Modest(a + [files], |a|, limit);
  }

  lemma ExtendsOn(a: seq<map<Path, nat>>, b: seq<map<Path, nat>>, c: seq<map<Path, nat>>, limit: nat)
    requires Extends(a, b, limit) && Extends(b, c, limit)
    ensures Extends(a, c, limit)
  {
    assert c[..|a|] == c[..|b|][..|a|];
    forall k | |a| <= k < |c| ensures Modest(c, k, limit) {
      if k < |b| {
        assert Modest(b, k, limit);
        assert c[k] == c[..|b|][k] == b[k] && c[k - 1] == c[..|b|][k - 1] == b[k - 1];
      } else {
        assert Modest(c, k, limit);
      }
    }
  }

  /** Without any growth at all, whatever the limit. */
  lemma ShrinksIsWithin(a: seq<map<Path, nat>>, b: seq<map<Path, nat>>, limit: nat)
    requires Extends(a, b, 0)
    ensures Extends(a, b, limit)
  {
    forall k | |a| <= k < |b| ensures Modest(b, k, limit) {
      assert Modest(b, k, 0);
    }
  }

  lemma ShrinksThenGrows(a: seq<map<Path, nat>>, b: seq<map<Path, nat>>, files: map<Path, nat>, limit: nat)
    requires Extends(a, b, 0) && Bytes(files) <= limit
    ensures Extends(a, b, limit) && Extends(a, b + [files], limit)
  {
    ShrinksIsWithin(a, b, limit);
    ExtendsOne(b, files, limit);
    ExtendsOn(a, b, b + [files], limit);
  }

  /** Once the disk is within the limit, it stays there. */
  lemma {:induction false} OnceWithin(a: seq<map<Path, nat>>, b: seq<map<Path, nat>>, limit: nat, j: nat, k: nat)
    requires Extends(a, b, limit) && |a| <= j + 1 && j <= k < |b| && Bytes(b[j]) <= limit
    ensures Bytes(b[k]) <= limit
    decreases k
  {
    if j < k {
      OnceWithin(a, b, limit, j, k - 1);
      assert Modest(b, k, limit);
    }
  }

  /** Once room is made, growth within the limit stays within it. */
  lemma GrowsWithin(a: seq<map<Path, nat>>, b: seq<map<Path, nat>>, c: seq<map<Path, nat>>, limit: nat)
    requires Extends(a, b, 0) && Extends(b, c, limit) && Bytes(b[|b| - 1]) <= limit
    ensures Extends(a, c, limit) && Bytes(c[|c| - 1]) <= limit
  {
    ShrinksIsWithin(a, b, limit);
    ExtendsOn(a, b, c, limit);
    assert c[..|b|][|b| - 1] == b[|b| - 1];
    OnceWithin(b, c, limit, |b| - 1, |c| - 1);
  }
}
