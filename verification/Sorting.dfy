/** Sorting, as the sort package does it: a permutation in the given order. */
module Sorting {

  ghost predicate Total<T(!new)>(le: (T, T) -> bool) {
    forall x, y :: le(x, y) || le(y, x)
  }

  ghost predicate Transitive<T(!new)>(le: (T, T) -> bool) {
    forall x, y, z :: le(x, y) && le(y, z) ==> le(x, z)
  }

  ghost predicate Sorted<T>(le: (T, T) -> bool, s: seq<T>) {
    forall i, j | 0 <= i < j < |s| :: le(s[i], s[j])
  }

  /** Each element of the set stands in the sequence exactly once. */
  ghost predicate Lists<T(!new)>(s: seq<T>, elements: set<T>) {
    && (forall x :: x in s <==> x in elements)
    && (forall i, j | 0 <= i < j < |s| :: s[i] != s[j])
  }

  /** Puts x behind every element that is not greater. */
  method Insert<T(!new)>(le: (T, T) -> bool, s: seq<T>, x: T) returns (r: seq<T>)
    requires Total(le) && Transitive(le) && Sorted(le, s)
    ensures Sorted(le, r)
    ensures multiset(r) == multiset(s) + multiset{x}
  {
    var i := |s|;
    while i > 0 && !le(s[i - 1], x)
      invariant 0 <= i <= |s|
      invariant forall j | i <= j < |s| :: le(x, s[j])
    {
      i := i - 1;
    }
    r := s[..i] + [x] + s[i..];
    assert s == s[..i] + s[i..];
    InsertedSorted(le, s, x, i);
  }

  lemma InsertedSorted<T(!new)>(le: (T, T) -> bool, s: seq<T>, x: T, i: nat)
    requires Transitive(le) && Sorted(le, s) && i <= |s|
    requires i > 0 ==> le(s[i - 1], x)
    requires forall j | i <= j < |s| :: le(x, s[j])
    ensures Sorted(le, s[..i] + [x] + s[i..])
  {
    var r := s[..i] + [x] + s[i..];
    forall j, k | 0 <= j < k < |r| ensures le(r[j], r[k]) {
      if j < i && k == i {
        assert j == i - 1 || le(s[j], s[i - 1]);
      }
    }
  }

  method Sort<T(!new)>(le: (T, T) -> bool, s: seq<T>) returns (r: seq<T>)
    requires Total(le) && Transitive(le)
    ensures Sorted(le, r)
    ensures multiset(r) == multiset(s)
  {
    r := [];
    for i := 0 to |s|
      invariant Sorted(le, r)
      invariant multiset(r) == multiset(s[..i])
    {
      assert s[..i + 1] == s[..i] + [s[i]];
      r := Insert(le, r, s[i]);
    }
    assert s[..|s|] == s;
  }

  /** Sorting keeps a listing of a set a listing of that set. */
  lemma PermutationLists<T(!new)>(s: seq<T>, r: seq<T>, elements: set<T>)
    requires Lists(s, elements) && multiset(r) == multiset(s)
    ensures Lists(r, elements)
  {
    forall x ensures x in r <==> x in elements {
      assert x in r <==> x in multiset(r);
      assert x in s <==> x in multiset(s);
    }
    forall i, j | 0 <= i < j < |r| ensures r[i] != r[j] {
      if r[i] == r[j] {
        TwiceCounts(r, i, j);
        var x := r[i];
        assert multiset(s)[x] >= 2;
        var k, l := FindTwo(s, x);
        assert false;
      }
    }
  }

  lemma TwiceCounts<T>(s: seq<T>, i: nat, j: nat)
    requires i < j < |s| && s[i] == s[j]
    ensures multiset(s)[s[i]] >= 2
  {
    assert s == s[..j] + [s[j]] + s[j + 1..];
    assert s[..j][i] == s[i];
    assert s[i] in multiset(s[..j]);
  }

  lemma FindTwo<T>(s: seq<T>, x: T) returns (i: nat, j: nat)
    requires multiset(s)[x] >= 2
    ensures i < j < |s| && s[i] == x && s[j] == x
  {
    i :| i < |s| && s[i] == x;
    assert s == s[..i] + [s[i]] + s[i + 1..];
    if x in s[i + 1..] {
      var k :| 0 <= k < |s[i + 1..]| && s[i + 1..][k] == x;
      j := i + 1 + k;
    } else {
      assert x in multiset(s[..i]);
      var k :| 0 <= k < i && s[k] == x;
      i, j := k, i;
    }
  }

  lemma ListsAppend<T(!new)>(s: seq<T>, elements: set<T>, x: T)
    requires Lists(s, elements) && x !in elements
    ensures Lists(s + [x], elements + {x})
  {
    forall i, j | 0 <= i < j < |s + [x]| ensures (s + [x])[i] != (s + [x])[j] {
      assert (s + [x])[i] in s;
    }
  }

  lemma ListsSize<T(!new)>(s: seq<T>, elements: set<T>)
    requires Lists(s, elements)
    ensures |s| == |elements|
  {
    if s == [] {
      assert elements == {};
    } else {
      var rest := s[..|s| - 1];
      var last := s[|s| - 1];
      assert s == rest + [last];
      assert Lists(rest, elements - {last});
      ListsSize(rest, elements - {last});
    }
  }

  /******* The order of strings *******/

  predicate StringLe(a: string, b: string) {
    if a == [] then true
    else if b == [] then false
    else a[0] < b[0] || (a[0] == b[0] && StringLe(a[1..], b[1..]))
  }

  lemma {:induction false} StringLeTotal(a: string, b: string)
    ensures StringLe(a, b) || StringLe(b, a)
  {
    if a != [] && b != [] && a[0] == b[0] {
      StringLeTotal(a[1..], b[1..]);
    }
  }

  lemma {:induction false} StringLeTransitive(a: string, b: string, c: string)
    requires StringLe(a, b) && StringLe(b, c)
    ensures StringLe(a, c)
  {
    if a != [] && a[0] == b[0] && b[0] == c[0] {
      StringLeTransitive(a[1..], b[1..], c[1..]);
    }
  }

  lemma StringOrder()
    ensures Total(StringLe) && Transitive(StringLe)
  {
    forall a, b ensures StringLe(a, b) || StringLe(b, a) {
      StringLeTotal(a, b);
    }
    forall a, b, c | StringLe(a, b) && StringLe(b, c) ensures StringLe(a, c) {
      StringLeTransitive(a, b, c);
    }
  }
}
