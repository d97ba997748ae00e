/** Case-sensitive literal search inside one line. */
module LiteralSearch {
  import opened Utf8

  /** A half-open range of byte offsets inside a line. */
  datatype Range = Range(start: nat, end: nat)

  predicate OccursAt(line: seq<byte>, needle: seq<byte>, i: nat) {
    i + |needle| <= |line| && line[i..i + |needle|] == needle
  }

  /** bytes.Index on the rest of the line: the first occurrence, or the length of the line. */
  function Index(line: seq<byte>, needle: seq<byte>, offset: nat): (i: nat)
    requires needle != [] && offset <= |line|
    ensures offset <= i <= |line|
    ensures i < |line| ==> OccursAt(line, needle, i)
    ensures forall k | offset <= k < i :: !OccursAt(line, needle, k)
    decreases |line| - offset
  {
    if offset == |line| || OccursAt(line, needle, offset) then offset else Index(line, needle, offset + 1)
  }

  /******* Matches inside one line *******/

  ghost predicate AreOccurrences(line: seq<byte>, needle: seq<byte>, ranges: seq<Range>) {
    forall r | r in ranges :: OccursAt(line, needle, r.start) && r.end == r.start + |needle|
  }

  ghost predicate Disjoint(ranges: seq<Range>) {
    forall i, j | 0 <= i < j < |ranges| :: ranges[i].end <= ranges[j].start
  }

  /** The range contains the start. */
  predicate Covers(r: Range, k: nat) {
    r.start <= k < r.end
  }

  /** Every occurrence is reported, or begins inside a reported one that begins before it. */
  ghost predicate NothingMissed(line: seq<byte>, needle: seq<byte>, ranges: seq<Range>) {
    forall k: nat | OccursAt(line, needle, k) :: exists r :: r in ranges && Covers(r, k)
  }

  /** The leftmost greedy disjoint occurrences. */
  ghost predicate Greedy(line: seq<byte>, needle: seq<byte>, ranges: seq<Range>) {
    AreOccurrences(line, needle, ranges) && Disjoint(ranges) && NothingMissed(line, needle, ranges)
  }

  /** Everything that begins before the offset is found or covered. */
  ghost predicate GreedyUpTo(line: seq<byte>, needle: seq<byte>, ranges: seq<Range>, offset: nat) {
    && offset <= |line|
    && AreOccurrences(line, needle, ranges) && Disjoint(ranges)
    && (forall r | r in ranges :: r.end <= offset)
    && (forall k: nat | k < offset && OccursAt(line, needle, k) :: exists r :: r in ranges && Covers(r, k))
  }

  lemma FoundNext(line: seq<byte>, needle: seq<byte>, ranges: seq<Range>, offset: nat, found: Range)
    requires needle != [] && GreedyUpTo(line, needle, ranges, offset)
    requires found.start >= offset && found.end == found.start + |needle| && OccursAt(line, needle, found.start)
    requires forall k | offset <= k < found.start :: !OccursAt(line, needle, k)
    ensures GreedyUpTo(line, needle, ranges + [found], found.end)
  {
    DisjointMore(ranges, found);
    forall k: nat | k < found.end && OccursAt(line, needle, k)
      ensures exists r :: r in ranges + [found] && Covers(r, k)
    {
      CoveredNext(line, needle, ranges, offset, found, k);
    }
  }

  lemma DisjointMore(ranges: seq<Range>, found: Range)
    requires Disjoint(ranges) && forall r | r in ranges :: r.end <= found.start
    ensures Disjoint(ranges + [found])
  {
    forall i, j | 0 <= i < j < |ranges + [found]| ensures (ranges + [found])[i].end <= (ranges + [found])[j].start {
      assert ranges[i] in ranges;
    }
  }

  lemma CoveredNext(line: seq<byte>, needle: seq<byte>, ranges: seq<Range>, offset: nat, found: Range, k: nat)
    requires GreedyUpTo(line, needle, ranges, offset)
    requires forall j | offset <= j < found.start :: !OccursAt(line, needle, j)
    requires k < found.end && OccursAt(line, needle, k)
    ensures exists r :: r in ranges + [found] && Covers(r, k)
  {
    if k < offset {
      var r :| r in ranges && Covers(r, k);
      assert r in ranges + [found];
    } else {
      assert found in ranges + [found] && Covers(found, k);
    }
  }

  /** Once no occurrence begins at or behind the offset, nothing is missed. */
  lemma FoundAll(line: seq<byte>, needle: seq<byte>, ranges: seq<Range>, offset: nat)
    requires needle != [] && GreedyUpTo(line, needle, ranges, offset)
    requires offset + |needle| > |line| || Index(line, needle, offset) == |line|
    ensures Greedy(line, needle, ranges)
  {
  }

  /** What the matcher reports on a line from an offset on. */
  function LiteralMatches(needle: seq<byte>, line: seq<byte>, offset: nat): seq<Range>
    requires needle != [] && offset <= |line|
    decreases |line| - offset
  {
    var start := Index(line, needle, offset);
    if offset + |needle| > |line| || start == |line| then []
    else [Range(start, start + |needle|)] + LiteralMatches(needle, line, start + |needle|)
  }

  lemma {:induction false} LiteralIsGreedyFrom(needle: seq<byte>, line: seq<byte>, offset: nat, ranges: seq<Range>,
      rest: seq<Range>, all: seq<Range>)
    requires needle != [] && GreedyUpTo(line, needle, ranges, offset)
    requires rest == LiteralMatches(needle, line, offset) && all == ranges + rest
    ensures Greedy(line, needle, all)
    decreases |line| - offset
  {
    var start := Index(line, needle, offset);
    if offset + |needle| > |line| || start == |line| {
      FoundAll(line, needle, ranges, offset);
      assert all == ranges;
    } else {
      var found := Range(start, start + |needle|);
      var next := LiteralMatches(needle, line, found.end);
      FoundNext(line, needle, ranges, offset, found);
      Regroup(ranges, found, rest, next, all);
      LiteralIsGreedyFrom(needle, line, found.end, ranges + [found], next, all);
    }
  }

  lemma Regroup(ranges: seq<Range>, found: Range, rest: seq<Range>, next: seq<Range>, all: seq<Range>)
    requires rest == [found] + next && all == ranges + rest
    ensures all == ranges + [found] + next
  {
  }

  /** The literal matcher as a function of the line. */
  function Literal(needle: seq<byte>): seq<byte> -> seq<Range>
    requires needle != []
  {
    line => LiteralMatches(needle, line, 0)
  }

  lemma LiteralIsGreedy(needle: seq<byte>, line: seq<byte>)
    requires needle != []
    ensures Greedy(line, needle, Literal(needle)(line))
  {
    var matches := LiteralMatches(needle, line, 0);
    assert matches == [] + matches;
    LiteralIsGreedyFrom(needle, line, 0, [], matches, matches);
  }

  lemma LiteralOccurs(needle: seq<byte>, line: seq<byte>, r: Range)
    requires needle != [] && r in Literal(needle)(line)
    ensures OccursAt(line, needle, r.start)
  {
    LiteralIsGreedy(needle, line);
  }

  /** literalMatcher.FindAllIndex; Compile refuses the empty needle. */
  method FindAllIndex(needle: seq<byte>, line: seq<byte>) returns (ranges: seq<Range>)
    requires needle != []
    ensures Greedy(line, needle, ranges)
    ensures ranges == Literal(needle)(line)
  {
    ranges := [];
    var offset: nat := 0;
    while offset <= |line| - |needle|
      invariant GreedyUpTo(line, needle, ranges, offset)
      decreases |line| - offset
    {
      var start := Index(line, needle, offset);
      if start == |line| {
        break;
      }
      var found := Range(start, start + |needle|);
      FoundNext(line, needle, ranges, offset, found);
      ranges := ranges + [found];
      offset := found.end;
    }
    FoundAll(line, needle, ranges, offset);
    LiteralIsGreedy(needle, line);
    GreedyIsUnique(line, needle, ranges, Literal(needle)(line));
  }

  lemma RangesAscend(line: seq<byte>, needle: seq<byte>, ranges: seq<Range>, i: nat, j: nat)
    requires needle != [] && AreOccurrences(line, needle, ranges) && Disjoint(ranges)
    requires i <= j < |ranges|
    ensures ranges[i].start <= ranges[j].start && ranges[i].end <= ranges[j].end
  {
    assert ranges[i] in ranges && ranges[j] in ranges;
  }

  lemma CoveringIndex(line: seq<byte>, needle: seq<byte>, ranges: seq<Range>, k: nat) returns (i: nat)
    requires Greedy(line, needle, ranges) && OccursAt(line, needle, k)
    ensures i < |ranges| && Covers(ranges[i], k)
  {
    var r :| r in ranges && Covers(r, k);
    i :| i < |ranges| && ranges[i] == r;
  }

  /** The j-th reported occurrence begins no later than the j-th of any disjoint selection. */
  lemma {:induction false} GreedyStaysAhead(line: seq<byte>, needle: seq<byte>, ranges: seq<Range>, other: seq<Range>, j: nat)
    requires needle != [] && Greedy(line, needle, ranges)
    requires AreOccurrences(line, needle, other) && Disjoint(other) && j < |other|
    ensures j < |ranges| && ranges[j].start <= other[j].start && ranges[j].end <= other[j].end
  {
    assert other[j] in other;
    var i := CoveringIndex(line, needle, ranges, other[j].start);
    if j > 0 {
      GreedyStaysAhead(line, needle, ranges, other, j - 1);
      NotCoveredBefore(line, needle, ranges, j, other[j].start, i);
    }
    RangesAscend(line, needle, ranges, j, i);
    assert ranges[j] in ranges;
  }

  /** What covers a start behind the first j reported is not among them. */
  lemma NotCoveredBefore(line: seq<byte>, needle: seq<byte>, ranges: seq<Range>, j: nat, start: nat, i: nat)
    requires needle != [] && AreOccurrences(line, needle, ranges) && Disjoint(ranges)
    requires 0 < j <= |ranges| && ranges[j - 1].end <= start
    requires i < |ranges| && Covers(ranges[i], start)
    ensures i >= j
  {
    if i <= j - 1 {
      RangesAscend(line, needle, ranges, i, j - 1);
    }
  }

  /** No selection of disjoint occurrences has more of them. */
  lemma GreedyIsMaximum(line: seq<byte>, needle: seq<byte>, ranges: seq<Range>, other: seq<Range>)
    requires needle != [] && Greedy(line, needle, ranges)
    requires AreOccurrences(line, needle, other) && Disjoint(other)
    ensures |other| <= |ranges|
  {
    if |other| > 0 {
      GreedyStaysAhead(line, needle, ranges, other, |other| - 1);
    }
  }

  /** The three conditions leave no choice. */
  lemma GreedyIsUnique(line: seq<byte>, needle: seq<byte>, a: seq<Range>, b: seq<Range>)
    requires needle != [] && Greedy(line, needle, a) && Greedy(line, needle, b)
    ensures a == b
  {
    GreedyIsMaximum(line, needle, a, b);
    GreedyIsMaximum(line, needle, b, a);
    forall j | 0 <= j < |a| ensures a[j] == b[j] {
      GreedyStaysAhead(line, needle, a, b, j);
      GreedyStaysAhead(line, needle, b, a, j);
      assert a[j] in a && b[j] in b;
    }
  }
}
