/** UTF-8 as section 4 of RFC 3629 defines it, on bytes. */
module Utf8 {

  type byte = b: int | 0 <= b < 0x100

  predicate Continuation(b: byte) {
    0x80 <= b < 0xC0
  }

  /** utf8.RuneStart */
  predicate RuneStart(b: byte) {
    !Continuation(b)
  }

  /** How many bytes a sequence has that begins with this one, or zero. */
  function Announced(first: byte): (n: nat)
    ensures n <= 4
  {
    if first < 0x80 then 1
    else if first < 0xC2 then 0
    else if first < 0xE0 then 2
    else if first < 0xF0 then 3
    else if first < 0xF5 then 4
    else 0
  }

  /** The bytes behind the first one continue it. */
  predicate Continues(s: seq<byte>, n: nat)
    requires n <= |s|
  {
    && (n >= 2 ==> SecondOk(s[0], s[1]))
    && (n >= 3 ==> Continuation(s[2]))
    && (n >= 4 ==> Continuation(s[3]))
  }

  /** The length of the well-formed sequence that s begins with, or zero. */
  function RuneLen(s: seq<byte>): (n: nat)
    ensures n <= 4 && n <= |s|
  {
    if s == [] then 0
    else if Announced(s[0]) <= |s| && Continues(s, Announced(s[0])) then Announced(s[0])
    else 0
  }

  /** The second byte, restricted after the first bytes that could begin an
      overlong form, a surrogate, or a value above U+10FFFF. */
  predicate SecondOk(first: byte, second: byte) {
    (if first == 0xE0 then 0xA0 else if first == 0xF0 then 0x90 else 0x80) <= second <=
    (if first == 0xED then 0x9F else if first == 0xF4 then 0x8F else 0xBF)
  }

  predicate Valid(s: seq<byte>)
    decreases |s|
  {
    match RuneLen(s)
    case 0 => s == []
    case n => Valid(s[n..])
  }

  /** utf8.DecodeRune's size: one byte for anything malformed. */
  function RuneSize(s: seq<byte>): nat
    requires s != []
  {
    if RuneLen(s) == 0 then 1 else RuneLen(s)
  }

  /** Between two code points, or at an end. */
  predicate Boundary(s: seq<byte>, i: int) {
    0 <= i <= |s| && (i == |s| || RuneStart(s[i]))
  }

  lemma RuneLenLocal(a: seq<byte>, b: seq<byte>)
    requires 0 < RuneLen(a) <= |b| && a[..RuneLen(a)] == b[..RuneLen(a)]
    ensures RuneLen(b) == RuneLen(a)
  {
    var n := RuneLen(a);
    assert forall i | 0 <= i < n :: a[i] == a[..n][i] == b[..n][i] == b[i];
  }

  /** The bytes of one code point: the first starts it, the others do not. */
  lemma InsideRune(s: seq<byte>, i: nat)
    requires i < RuneLen(s)
    ensures RuneStart(s[i]) <==> i == 0
  {
  }

  /** Cutting valid text at a rune start leaves two valid texts. */
  lemma {:induction false} CutValid(s: seq<byte>, i: nat)
    requires Valid(s) && Boundary(s, i)
    ensures Valid(s[..i]) && Valid(s[i..])
    decreases |s|
  {
    var n := RuneLen(s);
    if i == 0 || i == |s| {
      assert s[..|s|] == s && s[0..] == s;
    } else if i < n {
      InsideRune(s, i);
      assert false;
    } else {
      SliceTwice(s, n, i);
      assert Boundary(s[n..], i - n);
      CutValid(s[n..], i - n);
      RuneLenLocal(s, s[..i]);
      ValidStep(s[..i], n);
    }
  }

  lemma SliceTwice(s: seq<byte>, n: nat, i: nat)
    requires n <= i <= |s|
    ensures s[n..][i - n..] == s[i..]
    ensures s[n..][..i - n] == s[n..i]
    ensures s[..i][n..] == s[n..i]
    ensures s[..i][..n] == s[..n]
    ensures i < |s| ==> s[n..][i - n] == s[i]
  {
  }

  /** The end of the first code point is a boundary. */
  lemma RuneEndsAtBoundary(s: seq<byte>)
    requires Valid(s) && s != []
    ensures 0 < RuneLen(s) <= |s| && Boundary(s, RuneLen(s)) && RuneStart(s[0])
  {
    var rest := s[RuneLen(s)..];
    if rest != [] {
      InsideRune(rest, 0);
    }
    InsideRune(s, 0);
  }

  lemma ValidStep(s: seq<byte>, n: nat)
    requires 0 < n == RuneLen(s) && Valid(s[n..])
    ensures Valid(s)
  {
  }

  lemma CutJoin(a: seq<byte>, b: seq<byte>, n: nat)
    requires n <= |a|
    ensures (a + b)[..n] == a[..n] && (a + b)[n..] == a[n..] + b
  {
  }

  lemma {:induction false} JoinValid(a: seq<byte>, b: seq<byte>)
    requires Valid(a) && Valid(b)
    ensures Valid(a + b)
    decreases |a|
  {
    if a == [] {
      assert a + b == b;
    } else {
      var n := RuneLen(a);
      JoinValid(a[n..], b);
      CutJoin(a, b, n);
      RuneLenLocal(a, a + b);
      ValidStep(a + b, n);
    }
  }
}
