/** The length of a text inside a JSON string, and the longest prefix that fits a budget. */
module JsonText {
  import opened Utf8
  import opened Wrappers

  const NEWLINE: byte := 0x0A

  /** The quote, the backslash, and the control characters with a letter of their own. */
  predicate HasShortEscape(b: byte) {
    b == 0x22 || b == 0x5C || b == 0x08 || b == 0x09 || b == 0x0A || b == 0x0C || b == 0x0D
  }

  /** What encoding/json writes for one well-formed code point: section 7 of
      RFC 8259, with the HTML characters and U+2028, U+2029 escaped as well. */
  function EscapedRune(r: seq<byte>): (n: nat)
    requires r != []
    ensures n > 0
  {
    if |r| == 1 then
      if HasShortEscape(r[0]) then 2
      else if r[0] < 0x20 || r[0] == 0x26 || r[0] == 0x3C || r[0] == 0x3E then 6
      else 1
    else if r == [0xE2, 0x80, 0xA8] || r == [0xE2, 0x80, 0xA9] then 6
    else |r|
  }

  /** encodedStringLength: the bytes between the quotes; a malformed byte becomes a six-byte escape. */
  function EncodedLength(s: seq<byte>): nat {
    if s == [] then 0
    else if RuneLen(s) == 0 then 6 + EncodedLength(s[1..])
    else EscapedRune(s[..RuneLen(s)]) + EncodedLength(s[RuneLen(s)..])
  }

  lemma EncodedStep(s: seq<byte>, n: nat)
    requires 0 < n == RuneLen(s)
    ensures EncodedLength(s) == EscapedRune(s[..n]) + EncodedLength(s[n..])
  {
  }

  /** Escaping works code point by code point, so lengths add up over valid text. */
  lemma {:induction false} EncodedLengthJoin(a: seq<byte>, b: seq<byte>)
    requires Valid(a)
    ensures EncodedLength(a + b) == EncodedLength(a) + EncodedLength(b)
    decreases |a|
  {
    if a == [] {
      assert a + b == b;
    } else {
      var n := RuneLen(a);
      EncodedLengthJoin(a[n..], b);
      CutJoin(a, b, n);
      RuneLenLocal(a, a + b);
      EncodedStep(a, n);
      EncodedStep(a + b, n);
    }
  }

  lemma LongerIsMore(s: seq<byte>, i: nat, j: nat)
    requires Valid(s) && i <= j && Boundary(s, i) && Boundary(s, j)
    ensures EncodedLength(s[..i]) <= EncodedLength(s[..j])
  {
    CutValid(s, i);
    Cut(s, i, j);
    EncodedLengthJoin(s[..i], s[i..j]);
  }

  lemma Cut(s: seq<byte>, i: nat, j: nat)
    requires i <= j <= |s|
    ensures s[..j] == s[..i] + s[i..j]
    ensures s[i..][..j - i] == s[i..j] && s[i..][j - i..] == s[j..]
  {
  }

  lemma NextBoundary(value: seq<byte>, end: nat, n: nat)
    requires end < |value| && Valid(value[end..]) && n == RuneLen(value[end..])
    ensures 0 < n && end + n <= |value| && Boundary(value, end + n)
  {
    var rest := value[end..];
    RuneEndsAtBoundary(rest);
    assert end + n < |value| ==> value[end + n] == rest[n];
  }

  lemma NextLength(value: seq<byte>, end: nat, n: nat)
    requires end + n <= |value| && Valid(value[..end]) && 0 < n == RuneLen(value[end..])
    ensures EncodedLength(value[..end + n]) == EncodedLength(value[..end]) + EscapedRune(value[end..end + n])
  {
    Cut(value, end, end + n);
    OneRuneLength(value[end..], value[end..end + n], n);
    EncodedLengthJoin(value[..end], value[end..end + n]);
  }

  /** The next code point behind a boundary. */
  lemma NextRune(value: seq<byte>, end: nat, n: nat)
    requires end < |value| && Valid(value) && Boundary(value, end) && n == RuneLen(value[end..])
    ensures 0 < n && end + n <= |value| && Boundary(value, end + n)
    ensures EncodedLength(value[..end + n]) == EncodedLength(value[..end]) + EscapedRune(value[end..end + n])
  {
    CutValid(value, end);
    NextBoundary(value, end, n);
    NextLength(value, end, n);
  }

  lemma OneRuneLength(rest: seq<byte>, rune: seq<byte>, n: nat)
    requires 0 < n == RuneLen(rest) && rune == rest[..n]
    ensures EncodedLength(rune) == EscapedRune(rune)
  {
    assert rune[..n] == rune && rune[n..] == [];
    RuneLenLocal(rest, rune);
    EncodedStep(rune, n);
  }

  lemma NothingLongerFits(value: seq<byte>, end: nat, n: nat, maximum: nat, e: nat)
    requires end < |value| && Valid(value) && Boundary(value, end) && n == RuneLen(value[end..])
    requires end + n <= |value| && EncodedLength(value[..end + n]) > maximum
    requires Boundary(value, e) && EncodedLength(value[..e]) <= maximum
    ensures e <= end
  {
    NextRune(value, end, n);
    if e >= end + n {
      LongerIsMore(value, end + n, e);
    } else if e > end {
      NoBoundaryInside(value, end, n, e);
    }
  }

  lemma NoBoundaryInside(value: seq<byte>, end: nat, n: nat, e: nat)
    requires end < e < end + n <= |value| && n == RuneLen(value[end..])
    ensures !Boundary(value, e)
  {
    InsideRune(value[end..], e - end);
  }

  /******* boundedJSONPrefix *******/

  /** What the loop counts for the code point that s begins with: a malformed byte is
      read as the replacement character, which is three bytes and needs no escape. */
  function Counted(s: seq<byte>): nat
    requires s != []
  {
    if RuneLen(s) == 0 then 3 else EscapedRune(s[..RuneLen(s)])
  }

  /** Where the loop takes that code point to end. */
  function TakenFor(s: seq<byte>): nat
    requires s != []
  {
    if RuneLen(s) == 0 then 3 else RuneLen(s)
  }

  /** Where the loop over the code points stops, with s left from an index on. */
  function PrefixEnd(s: seq<byte>, maximum: nat, index: nat, used: nat, end: nat): nat
    decreases |s|
  {
    if s == [] || used + Counted(s) > maximum then end
    else PrefixEnd(s[RuneSize(s)..], maximum, index + RuneSize(s), used + Counted(s), index + TakenFor(s))
  }

  /** None stands for the failure of slicing beyond the end of the text. */
  function JsonPrefix(value: seq<byte>, maximum: nat): Option<seq<byte>> {
    if EncodedLength(value) <= maximum then Some(value)
    else
      var end := PrefixEnd(value, maximum, 0, 0, 0);
      if end <= |value| then Some(value[..end]) else None
  }

  method BoundedJsonPrefix(value: seq<byte>, maximum: nat) returns (r: Option<seq<byte>>)
    ensures r == JsonPrefix(value, maximum)
    ensures Valid(value) ==> r.Some? && LongestWithin(value, maximum, r.value)
  {
    if Valid(value) {
      PrefixOfValid(value, maximum);
    }
    if EncodedLength(value) <= maximum {
      return Some(value);
    }
    var used: nat, end: nat, index: nat, rest := 0, 0, 0, value;
    ghost var all := PrefixEnd(value, maximum, 0, 0, 0);
    while rest != []
      invariant all == PrefixEnd(rest, maximum, index, used, end)
      decreases |rest|
    {
      var size, characterBytes, taken := RuneSize(rest), Counted(rest), TakenFor(rest);
      if used + characterBytes > maximum {
        break;
      }
      used, end, index, rest := used + characterBytes, index + taken, index + size, rest[size..];
    }
    r := if end <= |value| then Some(value[..end]) else None;
  }

  /** The prefix ends at a code point, keeps the budget, and none that is longer does. */
  ghost predicate LongestWithin(value: seq<byte>, maximum: nat, prefix: seq<byte>) {
    && prefix <= value && Boundary(value, |prefix|)
    && EncodedLength(prefix) <= maximum
    && forall e | Boundary(value, e) && EncodedLength(value[..e]) <= maximum :: e <= |prefix|
  }

  /** How much of s the loop takes when it takes whole code points. */
  function Fit(s: seq<byte>, budget: nat): (f: nat)
    ensures f <= |s|
    decreases |s|
  {
    if s == [] || Counted(s) > budget then 0
    else RuneSize(s) + Fit(s[RuneSize(s)..], budget - Counted(s))
  }

  /** In valid text, that is where the loop stops. */
  lemma {:induction false} PrefixEndIsFit(s: seq<byte>, maximum: nat, index: nat, used: nat)
    requires Valid(s) && used <= maximum
    ensures PrefixEnd(s, maximum, index, used, index) == index + Fit(s, maximum - used)
    decreases |s|
  {
    if s != [] && used + Counted(s) <= maximum {
      PrefixEndIsFit(s[RuneSize(s)..], maximum, index + RuneSize(s), used + Counted(s));
    }
  }


  lemma Slices(s: seq<byte>, n: nat, k: nat)
    requires n + k <= |s|
    ensures s[n..][k..] == s[n + k..]
    ensures s[..n + k][..n] == s[..n] && s[..n + k][n..] == s[n..][..k]
  {
  }

  lemma OneMoreRune(s: seq<byte>, part: seq<byte>, n: nat, rest: seq<byte>)
    requires 0 < n == RuneLen(s) && n <= |part| && part[..n] == s[..n] && part[n..] == rest && Valid(rest)
    ensures Valid(part) && EncodedLength(part) == EscapedRune(s[..n]) + EncodedLength(rest)
  {
    RuneLenLocal(s, part);
    ValidStep(part, n);
    EncodedStep(part, n);
  }

  /** What fits is valid and within the budget, and the next code point would break it. */
  lemma {:induction false} FitFits(s: seq<byte>, budget: nat, f: nat, head: seq<byte>, tail: seq<byte>)
    requires Valid(s) && f == Fit(s, budget) && head == s[..f] && tail == s[f..]
    ensures Valid(head) && Valid(tail)
    ensures EncodedLength(head) <= budget
    ensures tail != [] ==> EncodedLength(head) + EscapedRune(tail[..RuneLen(tail)]) > budget
    decreases |s|
  {
    if s == [] || Counted(s) > budget {
      assert head == [] && tail == s;
    } else {
      var n, cost := RuneLen(s), Counted(s);
      Slices(s, n, f - n);
      FitFits(s[n..], budget - cost, f - n, head[n..], tail);
      OneMoreRune(s, head, n, head[n..]);
    }
  }

  /** No longer prefix that ends at a boundary is within the budget. */
  lemma FitIsLongest(s: seq<byte>, budget: nat, f: nat)
    requires Valid(s) && f == Fit(s, budget)
    ensures LongestWithin(s, budget, s[..f])
  {
    FitFits(s, budget, f, s[..f], s[f..]);
    FitEndsAtBoundary(s, f);
    forall e | Boundary(s, e) && EncodedLength(s[..e]) <= budget ensures e <= f {
      if f < |s| {
        BeyondFit(s, budget, f, e);
      }
    }
  }

  lemma BeyondFit(s: seq<byte>, budget: nat, f: nat, e: nat)
    requires Valid(s) && f < |s| && Boundary(s, f) && Valid(s[f..])
    requires EncodedLength(s[..f]) + EscapedRune(s[f..][..RuneLen(s[f..])]) > budget
    requires Boundary(s, e) && EncodedLength(s[..e]) <= budget
    ensures e <= f
  {
    var n := RuneLen(s[f..]);
    NextRune(s, f, n);
    Cut(s, f, f + n);
    NothingLongerFits(s, f, n, budget, e);
  }

  lemma FitEndsAtBoundary(s: seq<byte>, f: nat)
    requires f <= |s| && Valid(s[f..])
    ensures Boundary(s, f)
  {
    if f < |s| {
      RuneEndsAtBoundary(s[f..]);
    }
  }

  lemma WholeIsLongest(value: seq<byte>, maximum: nat)
    requires EncodedLength(value) <= maximum
    ensures LongestWithin(value, maximum, value)
  {
  }

  /** boundedJSONPrefix on valid text: the longest prefix of whole code points within the budget. */
  lemma PrefixOfValid(value: seq<byte>, maximum: nat)
    requires Valid(value)
    ensures JsonPrefix(value, maximum).Some? && LongestWithin(value, maximum, JsonPrefix(value, maximum).value)
  {
    if EncodedLength(value) <= maximum {
      WholeIsLongest(value, maximum);
    } else {
      PrefixEndIsFit(value, maximum, 0, 0);
      FitIsLongest(value, maximum, Fit(value, maximum));
    }
  }


  /******* Malformed text *******/

  function CountedAll(s: seq<byte>): nat {
    if s == [] then 0 else Counted(s) + CountedAll(s[RuneSize(s)..])
  }

  /** Each malformed byte is counted as three bytes less than it costs. */
  lemma {:induction false} CountedTooLittle(s: seq<byte>)
    ensures CountedAll(s) <= EncodedLength(s)
    ensures !Valid(s) ==> CountedAll(s) + 3 <= EncodedLength(s)
    decreases |s|
  {
    if s != [] {
      CountedTooLittle(s[RuneSize(s)..]);
    }
  }

  lemma {:induction false} RunsThrough(s: seq<byte>, maximum: nat, index: nat, used: nat, end: nat)
    requires end >= index && used + CountedAll(s) <= maximum
    ensures PrefixEnd(s, maximum, index, used, end) >= index + |s|
    decreases |s|
  {
    if s != [] {
      RunsThrough(s[RuneSize(s)..], maximum, index + RuneSize(s), used + Counted(s), index + TakenFor(s));
    }
  }

  /** The budget is kept for every maximum if and only if the text is valid UTF-8: with
      one byte too little, malformed text is returned whole, or sliced beyond its end. */
  lemma BudgetNeedsValidText(value: seq<byte>)
    ensures (forall maximum: nat :: KeepsBudget(value, maximum)) <==> Valid(value)
  {
    if Valid(value) {
      forall maximum: nat ensures KeepsBudget(value, maximum) {
        PrefixOfValid(value, maximum);
      }
    } else {
      CountedTooLittle(value);
      var maximum := EncodedLength(value) - 1;
      RunsThrough(value, maximum, 0, 0, 0);
      assert value[..|value|] == value;
      assert !KeepsBudget(value, maximum);
    }
  }

  ghost predicate KeepsBudget(value: seq<byte>, maximum: nat) {
    JsonPrefix(value, maximum).Some? && EncodedLength(JsonPrefix(value, maximum).value) <= maximum
  }
}
