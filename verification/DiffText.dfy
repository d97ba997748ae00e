/**
 The rendered diff of a pull request: written piece by piece into a bounded
 buffer, and cut at a line end when it does not fit.
 */
module DiffText {
  import opened Wrappers
  import opened Utf8
  import opened JsonText

  /** The buffer after the pieces of `whole` were written, or offered, to it. */
  ghost predicate Bounded(maximum: int, whole: seq<byte>, buffer: seq<byte>, truncated: bool) {
    if maximum <= 0 then buffer == whole && !truncated
    else
      && (truncated <==> |whole| > maximum)
      && buffer == if truncated then whole[..maximum] else whole
  }

  /** limitedDiffWriter */
  class LimitedDiffWriter {
    const maximum: int
    var buffer: seq<byte>
    var truncated: bool

    constructor (maximum: int)
      ensures this.maximum == maximum && buffer == [] && !truncated
    {
      this.maximum := maximum;
      buffer, truncated := [], false;
    }

    /** Writes what still fits; the first byte that does not fit is reported as an error. */
    method Write(p: seq<byte>, ghost whole: seq<byte>) returns (n: nat, limitReached: bool)
      requires Bounded(maximum, whole, buffer, truncated)
      modifies this
      ensures Bounded(maximum, whole + p, buffer, truncated)
      ensures n <= |p| && buffer == old(buffer) + p[..n]
      ensures limitReached <==> n < |p|
      ensures limitReached ==> truncated
    {
      if maximum <= 0 {
        buffer := buffer + p;
        return |p|, false;
      }
      var remaining := maximum - |buffer|;
      if |p| <= remaining {
        buffer := buffer + p;
        return |p|, false;
      }
      buffer := buffer + p[..remaining];
      truncated := true;
      return remaining, true;
    }
  }

  predicate EndsLine(s: seq<byte>, cut: nat)
    requires cut <= |s|
  {
    cut == 0 || s[cut - 1] == NEWLINE
  }

  /** truncateToLastLine: the longest prefix within the limit that is empty or ends a line. */
  method TruncateToLastLine(raw: seq<byte>, maxBytes: nat) returns (r: seq<byte>)
    ensures r <= raw && |r| <= maxBytes && EndsLine(raw, |r|)
    ensures forall k | 0 <= k <= |raw| && k <= maxBytes && EndsLine(raw, k) :: k <= |r|
  {
    var cut := if maxBytes <= |raw| then maxBytes else |raw|;
    while cut > 0 && raw[cut - 1] != NEWLINE
      invariant 0 <= cut <= |raw| && cut <= maxBytes
      invariant forall k | 0 <= k <= |raw| && k <= maxBytes && EndsLine(raw, k) :: k <= cut
    {
      cut := cut - 1;
    }
    return raw[..cut];
  }

  datatype FileStat = FileStat(path: string, status: string, additions: nat, deletions: nat, isBinary: bool)

  /** What go-git makes of one tree change: one stat per file patch, and the
      pieces its encoder writes. None stands for a patch that could not be made. */
  datatype Patch = Patch(stats: seq<FileStat>, pieces: seq<seq<byte>>)

  datatype PullDiff = PullDiff(diff: seq<byte>, files: seq<FileStat>, truncated: bool)

  function Concat<T>(parts: seq<seq<T>>): seq<T> {
    if parts == [] then [] else Concat(parts[..|parts| - 1]) + parts[|parts| - 1]
  }

  /** The diff without any limit. */
  function WholeDiff(changes: seq<Option<Patch>>): seq<byte> {
    if changes == [] then []
    else
      var last := changes[|changes| - 1];
      WholeDiff(changes[..|changes| - 1]) + (if last.Some? then Concat(last.value.pieces) else [])
  }

  function AllStats(changes: seq<Option<Patch>>): seq<FileStat> {
    if changes == [] then []
    else
      var last := changes[|changes| - 1];
      AllStats(changes[..|changes| - 1]) + (if last.Some? then last.value.stats else [])
  }

  lemma BoundedGrows(maximum: int, whole: seq<byte>, buffer: seq<byte>, more: seq<byte>)
    requires Bounded(maximum, whole, buffer, true)
    ensures Bounded(maximum, whole + more, buffer, true)
  {
    assert (whole + more)[..maximum] == whole[..maximum];
  }

  lemma ConcatNext(whole: seq<byte>, pieces: seq<seq<byte>>, i: nat)
    requires i < |pieces|
    ensures whole + Concat(pieces[..i + 1]) == (whole + Concat(pieces[..i])) + pieces[i]
  {
    assert pieces[..i + 1][..i] == pieces[..i];
  }

  /** What was not offered any more would not have fitted either. */
  lemma BoundedAtLimit(maximum: int, whole: seq<byte>, pieces: seq<seq<byte>>, i: nat, buffer: seq<byte>)
    requires i <= |pieces| && Bounded(maximum, whole + Concat(pieces[..i]), buffer, true)
    ensures Bounded(maximum, whole + Concat(pieces), buffer, true)
  {
    var rest := ConcatSplit(pieces, i);
    Regroup(whole, Concat(pieces[..i]), rest);
    BoundedGrows(maximum, whole + Concat(pieces[..i]), buffer, rest);
  }

  lemma Regroup(a: seq<byte>, b: seq<byte>, c: seq<byte>)
    ensures a + (b + c) == (a + b) + c
  {
  }

  /** patch.Encode into the writer: it stops at the first error. */
  method Encode(pieces: seq<seq<byte>>, writer: LimitedDiffWriter, ghost whole: seq<byte>)
    requires Bounded(writer.maximum, whole, writer.buffer, writer.truncated)
    modifies writer
    ensures Bounded(writer.maximum, whole + Concat(pieces), writer.buffer, writer.truncated)
  {
    ghost var offered := whole;
    assert whole + Concat(pieces[..0]) == whole;
    for i := 0 to |pieces|
      invariant offered == whole + Concat(pieces[..i])
      invariant Bounded(writer.maximum, offered, writer.buffer, writer.truncated)
    {
      ConcatNext(whole, pieces, i);
      var _, limitReached := writer.Write(pieces[i], offered);
      offered := offered + pieces[i];
      if limitReached {
        BoundedAtLimit(writer.maximum, whole, pieces, i + 1, writer.buffer);
        return;
      }
    }
    assert pieces[..|pieces|] == pieces;
  }

  lemma {:induction false} ConcatSplit<T>(parts: seq<seq<T>>, i: nat) returns (rest: seq<T>)
    requires i <= |parts|
    ensures Concat(parts) == Concat(parts[..i]) + rest
    decreases |parts|
  {
    if i == |parts| {
      assert parts[..i] == parts;
      rest := [];
    } else {
      var front := parts[..|parts| - 1];
      var r := ConcatSplit(front, i);
      assert front[..i] == parts[..i];
      rest := r + parts[|parts| - 1];
    }
  }

  /** One change more: what it adds to the diff and to the stats. */
  lemma OneMoreChange(changes: seq<Option<Patch>>, i: nat)
    requires i < |changes|
    ensures changes[i].Some? ==>
      WholeDiff(changes[..i + 1]) == WholeDiff(changes[..i]) + Concat(changes[i].value.pieces)
    ensures changes[i].Some? ==> AllStats(changes[..i + 1]) == AllStats(changes[..i]) + changes[i].value.stats
    ensures None in changes[..i + 1] <==> None in changes[..i] || changes[i] == None
  {
    assert changes[..i + 1][..i] == changes[..i];
    assert changes[..i + 1] == changes[..i] + [changes[i]];
  }

  /** The last line end within the buffer is the last one within the limit of the whole. */
  lemma CutOfWhole(whole: seq<byte>, maximum: nat, buffer: seq<byte>, cut: seq<byte>)
    requires |whole| > maximum && buffer == whole[..maximum]
    requires cut <= buffer && EndsLine(buffer, |cut|)
    requires forall k | 0 <= k <= |buffer| && k <= maximum && EndsLine(buffer, k) :: k <= |cut|
    ensures cut <= whole && EndsLine(whole, |cut|)
    ensures forall k | 0 <= k <= maximum && EndsLine(whole, k) :: k <= |cut|
  {
    forall k | 0 <= k <= maximum && EndsLine(whole, k) ensures k <= |cut| {
      assert EndsLine(buffer, k);
    }
  }

  /** buildBoundedPullDiff: the streamed diff is the whole diff if that fits the
      limit, and otherwise its longest prefix that ends a line; the stats are
      complete either way. */
  method BuildBoundedPullDiff(changes: seq<Option<Patch>>, maxBytes: int) returns (r: Result<PullDiff, ()>)
    ensures r.Err? <==> None in changes
    ensures r.Ok? ==> r.value.files == AllStats(changes)
    ensures r.Ok? ==> (r.value.truncated <==> 0 < maxBytes < |WholeDiff(changes)|)
    ensures r.Ok? && !r.value.truncated ==> r.value.diff == WholeDiff(changes)
    ensures r.Ok? && r.value.truncated ==>
              && r.value.diff <= WholeDiff(changes)
              && |r.value.diff| <= maxBytes
              && EndsLine(WholeDiff(changes), |r.value.diff|)
              && forall k | 0 <= k <= maxBytes && EndsLine(WholeDiff(changes), k) :: k <= |r.value.diff|
  {
    var files: seq<FileStat> := [];
    var output := new LimitedDiffWriter(maxBytes);
    for i := 0 to |changes|
      invariant output.maximum == maxBytes
      invariant None !in changes[..i]
      invariant files == AllStats(changes[..i])
      invariant Bounded(maxBytes, WholeDiff(changes[..i]), output.buffer, output.truncated)
    {
      OneMoreChange(changes, i);
      if changes[i].None? {
        return Err(());
      }
      var patch := changes[i].value;
      files := files + patch.stats;
      if !output.truncated {
        Encode(patch.pieces, output, WholeDiff(changes[..i]));
      } else {
        BoundedGrows(maxBytes, WholeDiff(changes[..i]), output.buffer, Concat(patch.pieces));
      }
    }
    assert changes[..|changes|] == changes;
    var diff := output.buffer;
    if output.truncated {
      diff := TruncateToLastLine(output.buffer, maxBytes);
      CutOfWhole(WholeDiff(changes), maxBytes, output.buffer, diff);
    }
    return Ok(PullDiff(diff, files, output.truncated));
  }
}
