/**
 Long bodies in chunks: each reply carries one chunk of the body's bytes and
 the offset at which the next request continues.
 */
module BodyChunks {
  import opened Wrappers
  import opened Integers
  import opened Utf8

  const DEFAULT_BODY_BYTES := 8192

  /******* The specification *******/

  function Limit(maximum: int): (r: nat)
    ensures 0 < r <= DEFAULT_BODY_BYTES
  {
    if maximum <= 0 then DEFAULT_BODY_BYTES else Min(maximum, DEFAULT_BODY_BYTES)
  }

  function SkipToStart(body: seq<byte>, offset: nat): (r: nat)
    requires offset <= |body|
    ensures offset <= r <= |body|
    decreases |body| - offset
  {
    if offset < |body| && !RuneStart(body[offset]) then SkipToStart(body, offset + 1) else offset
  }

  function BackToStart(body: seq<byte>, offset: nat, end: nat): (r: nat)
    requires offset <= end <= |body|
    ensures offset <= r <= end
    decreases end
  {
    if offset < end < |body| && !RuneStart(body[end]) then BackToStart(body, offset, end - 1) else end
  }

  function ChunkStart(body: seq<byte>, offset: int): (r: nat)
    ensures Min(Max(0, offset), |body|) <= r <= |body|
  {
    SkipToStart(body, Min(Max(0, offset), |body|))
  }

  function ChunkEnd(body: seq<byte>, start: nat, maximum: int): (r: nat)
    requires start <= |body|
    ensures start <= r <= |body|
    ensures start < |body| ==> start < r
  {
    var end := BackToStart(body, start, Min(|body|, start + Limit(maximum)));
    if end == start && start < |body| then start + RuneSize(body[start..]) else end
  }

  /** bodyChunk */
  method BodyChunk(body: seq<byte>, offset: int, maximum: int) returns (chunk: seq<byte>, next: Option<nat>)
    ensures var start := ChunkStart(body, offset);
            var end := ChunkEnd(body, start, maximum);
            chunk == body[start..end] && next == if end < |body| then Some(end) else None
  {
    var start := Min(Max(0, offset), |body|);
    while start < |body| && !RuneStart(body[start])
      invariant 0 <= start <= |body|
      invariant SkipToStart(body, start) == ChunkStart(body, offset)
    {
      start := start + 1;
    }
    var limit := maximum;
    if limit <= 0 {
      limit := DEFAULT_BODY_BYTES;
    }
    limit := Min(limit, DEFAULT_BODY_BYTES);
    var end := Min(|body|, start + limit);
    while end > start && end < |body| && !RuneStart(body[end])
      invariant start <= end <= |body|
      invariant BackToStart(body, start, end) == BackToStart(body, start, Min(|body|, start + limit))
    {
      end := end - 1;
    }
    if end == start && start < |body| {
      end := start + RuneSize(body[start..]);
    }
    chunk := body[start..end];
    next := if end < |body| then Some(end) else None;
  }

  /** validateBodyOffset accepts exactly the boundaries of the body. */
  method ValidateBodyOffset(body: seq<byte>, offset: int) returns (ok: bool)
    ensures ok <==> Boundary(body, offset)
  {
    ok := !(offset < 0 || offset > |body| || (offset < |body| && !RuneStart(body[offset])));
  }

  /******* One chunk of a valid body *******/

  /** Going back stops no earlier than at the last rune start. */
  lemma {:induction false} BackIsLast(body: seq<byte>, offset: nat, end: nat, k: nat)
    requires offset < k <= end <= |body| && Boundary(body, k)
    ensures BackToStart(body, offset, end) >= k
    ensures Boundary(body, BackToStart(body, offset, end))
    decreases end
  {
    if offset < end < |body| && !RuneStart(body[end]) {
      BackIsLast(body, offset, end - 1, k);
    }
  }

  lemma {:induction false} BackFindsNone(body: seq<byte>, offset: nat, end: nat)
    requires offset <= end < |body|
    requires forall k | offset < k <= end :: !Boundary(body, k)
    ensures BackToStart(body, offset, end) == offset
    decreases end
  {
    if offset < end {
      assert !Boundary(body, end);
      BackFindsNone(body, offset, end - 1);
    }
  }

  /** A range between two boundaries of valid text is valid text. */
  lemma RangeValid(body: seq<byte>, start: nat, end: nat)
    requires Valid(body) && start <= end && Boundary(body, start) && Boundary(body, end)
    ensures Valid(body[start..end])
  {
    var rest := body[start..];
    CutValid(body, start);
    InRest(body, start, end);
    CutValid(rest, end - start);
    SameText(rest[..end - start], body[start..end]);
  }

  lemma SameText(a: seq<byte>, b: seq<byte>)
    requires a == b && Valid(a)
    ensures Valid(b)
  {
  }

  lemma InRest(body: seq<byte>, start: nat, end: nat)
    requires start <= end && Boundary(body, end)
    ensures Boundary(body[start..], end - start)
    ensures body[start..][..end - start] == body[start..end]
  {
  }

  /** The end of the code point at a boundary, and the lack of boundaries inside it. */
  lemma FirstRune(body: seq<byte>, start: nat) returns (first: nat)
    requires Valid(body) && Boundary(body, start) && start < |body|
    ensures first == start + RuneLen(body[start..]) == start + RuneSize(body[start..])
    ensures start < first <= start + 4 && Boundary(body, first)
    ensures forall k | start < k < first :: !Boundary(body, k)
  {
    CutValid(body, start);
    var rest := body[start..];
    RuneEndsAtBoundary(rest);
    first := start + RuneLen(rest);
    assert first < |body| ==> rest[first - start] == body[first];
    forall k | start < k < first ensures !Boundary(body, k) {
      InsideRune(rest, k - start);
      assert rest[k - start] == body[k];
    }
  }

  /** Where a chunk of valid text ends: at the last boundary within the limit,
      or behind its first code point if that alone exceeds the limit. */
  lemma ChunkEndIsLast(body: seq<byte>, start: nat, maximum: int)
    requires Valid(body) && Boundary(body, start) && start < |body|
    ensures var end := ChunkEnd(body, start, maximum);
            && Boundary(body, end)
            && start < end
            && (end - start <= Limit(maximum) || end == start + RuneLen(body[start..]))
            && (end - start <= Limit(maximum) || end - start <= 4)
            && forall e | Boundary(body, e) && e - start <= Limit(maximum) :: e <= end
  {
    var reach := Min(|body|, start + Limit(maximum));
    var first := FirstRune(body, start);
    if first <= reach {
      BackIsLast(body, start, reach, first);
      forall e | Boundary(body, e) && e - start <= Limit(maximum) ensures e <= ChunkEnd(body, start, maximum) {
        if e > start {
          BackIsLast(body, start, reach, e);
        }
      }
    } else {
      BackFindsNone(body, start, reach);
    }
  }

  /** A chunk of valid text that starts at a boundary: it is valid, it ends at a
      boundary, it makes progress, it keeps every limit of four bytes or more,
      and no longer chunk would have fitted. */
  lemma ChunkOfValidBody(body: seq<byte>, offset: nat, maximum: int)
    requires Valid(body) && Boundary(body, offset)
    ensures ChunkStart(body, offset) == offset
    ensures var end := ChunkEnd(body, offset, maximum);
            && Boundary(body, end)
            && Valid(body[offset..end])
            && (offset < |body| ==> offset < end)
            && (Limit(maximum) >= 4 ==> end - offset <= Limit(maximum))
            && (end - offset <= Limit(maximum) || end == offset + RuneLen(body[offset..]))
            && forall e | Boundary(body, e) && e - offset <= Limit(maximum) :: e <= end
  {
    if offset < |body| {
      ChunkEndIsLast(body, offset, maximum);
    }
    RangeValid(body, offset, ChunkEnd(body, offset, maximum));
  }

  /******* The whole body *******/

  /** A client that follows next_body_offset. It may ask for another maximum each time. */
  function Follow(body: seq<byte>, offset: nat, maxima: nat -> int): seq<byte>
    decreases |body| - offset
  {
    var start := ChunkStart(body, offset);
    var end := ChunkEnd(body, start, maxima(offset));
    if end < |body| then body[start..end] + Follow(body, end, maxima) else body[start..end]
  }

  lemma FollowStep(body: seq<byte>, offset: nat, maxima: nat -> int, end: nat)
    requires offset <= |body| && ChunkStart(body, offset) == offset && end == ChunkEnd(body, offset, maxima(offset))
    ensures Follow(body, offset, maxima)
      == if end < |body| then body[offset..end] + Follow(body, end, maxima) else body[offset..end]
  {
  }

  lemma Rejoin(body: seq<byte>, offset: nat, end: nat)
    requires offset <= end <= |body|
    ensures body[offset..] == body[offset..end] + body[end..]
    ensures end == |body| ==> body[offset..] == body[offset..end]
  {
  }

  /** Following next_body_offset rebuilds the body, whatever maxima are asked for. */
  lemma {:induction false} FollowRebuilds(body: seq<byte>, offset: nat, maxima: nat -> int)
    requires Valid(body) && Boundary(body, offset)
    ensures Follow(body, offset, maxima) == body[offset..]
    decreases |body| - offset
  {
    ChunkOfValidBody(body, offset, maxima(offset));
    var end := ChunkEnd(body, offset, maxima(offset));
    FollowStep(body, offset, maxima, end);
    Rejoin(body, offset, end);
    if end < |body| {
      FollowRebuilds(body, end, maxima);
    }
  }
}
