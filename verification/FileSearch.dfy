/**
 The bounded list of matches inside one text file, with the surroundings of
 each, and what it is for a literal.
 */
module FileSearch {
  import opened Integers
  import opened Utf8
  import opened FileRanges
  import opened LiteralSearch

  datatype ContextLine = ContextLine(number: nat, text: seq<byte>)

  /** A match by its line and its column, both counted from one, with its surroundings. */
  datatype Match = Match(line: nat, column: nat, text: seq<byte>, context: seq<ContextLine>)

  /** What a search looks for and how much it shows: the matcher, the truncation of
      shown lines, the lines of context, and the bound on the number of matches. */
  datatype Options = Options(matcher: seq<byte> -> seq<Range>, show: seq<byte> -> seq<byte>, contextLines: nat, maxResults: nat)

  predicate Earlier(a: Match, b: Match) {
    a.line < b.line || (a.line == b.line && a.column < b.column)
  }

  /** One line ending at the end of the file does not begin another line. */
  function FileLines(content: seq<byte>): seq<seq<byte>> {
    Split(if TrailingNewline(content) then content[..|content| - 1] else content)
  }

  function TrimReturn(line: seq<byte>): seq<byte> {
    if line != [] && line[|line| - 1] == 0x0D then line[..|line| - 1] else line
  }

  /** The code points of a text, with the replacement character for a malformed byte. */
  function Runes(s: seq<byte>): seq<seq<byte>> {
    if s == [] then []
    else if RuneLen(s) == 0 then [[0xEF, 0xBF, 0xBD]] + Runes(s[1..])
    else [s[..RuneLen(s)]] + Runes(s[RuneLen(s)..])
  }

  function Flatten(runes: seq<seq<byte>>): seq<byte> {
    if runes == [] then [] else runes[0] + Flatten(runes[1..])
  }

  /** truncateLine */
  function TruncateLine(line: seq<byte>): seq<byte> {
    var runes := Runes(line);
    if |runes| <= MAXIMUM_LINE_RUNES then line
    else Flatten(runes[..MAXIMUM_LINE_RUNES]) + [0xE2, 0x80, 0xA6]
  }

  const MAXIMUM_LINE_RUNES := 500

  /** The first code points of valid text are a valid prefix of it, with as many code points. */
  lemma {:induction false} RunesAreThePrefix(s: seq<byte>, n: nat)
    requires Valid(s) && n <= |Runes(s)|
    ensures Flatten(Runes(s)[..n]) <= s && Valid(Flatten(Runes(s)[..n]))
    ensures |Runes(Flatten(Runes(s)[..n]))| == n
    ensures n == |Runes(s)| ==> Flatten(Runes(s)) == s
    decreases n
  {
    if n > 0 {
      var k := RuneLen(s);
      var rest := Runes(s[k..]);
      RunesAreThePrefix(s[k..], n - 1);
      FlattenNext(s[..k], rest, n);
      assert Runes(s) == [s[..k]] + rest;
      OneRune(s[..k], s, k);
      RunesNext(s, k, Flatten(rest[..n - 1]));
      JoinValid(s[..k], Flatten(rest[..n - 1]));
      PrefixNext(s, k, Flatten(rest[..n - 1]));
    } else if Runes(s) == [] {
      assert s == [];
    }
  }

  lemma FlattenNext(rune: seq<byte>, rest: seq<seq<byte>>, n: nat)
    requires 0 < n <= |rest| + 1
    ensures Flatten(([rune] + rest)[..n]) == rune + Flatten(rest[..n - 1])
    ensures n == |rest| + 1 ==> rest[..n - 1] == rest && ([rune] + rest)[..n] == [rune] + rest
  {
    assert ([rune] + rest)[..n][1..] == rest[..n - 1];
  }

  lemma PrefixNext(s: seq<byte>, k: nat, front: seq<byte>)
    requires k <= |s| && front <= s[k..]
    ensures s[..k] + front <= s
    ensures front == s[k..] ==> s[..k] + front == s
  {
  }

  lemma RunesNext(s: seq<byte>, k: nat, front: seq<byte>)
    requires 0 < k == RuneLen(s)
    ensures |Runes(s[..k] + front)| == 1 + |Runes(front)|
  {
    var whole := s[..k] + front;
    assert whole[..k] == s[..k] && whole[k..] == front;
    RuneLenLocal(s, whole);
  }

  lemma OneRune(rune: seq<byte>, s: seq<byte>, k: nat)
    requires 0 < k == RuneLen(s) && rune == s[..k]
    ensures Valid(rune)
  {
    assert rune[..k] == rune && rune[k..] == [];
    RuneLenLocal(s, rune);
  }

  /** A line of at most 500 code points is shown whole, of a longer one the first 500. */
  lemma TruncatedLine(line: seq<byte>)
    requires Valid(line)
    ensures |Runes(line)| <= MAXIMUM_LINE_RUNES ==> TruncateLine(line) == line
    ensures |Runes(line)| > MAXIMUM_LINE_RUNES ==> exists shown ::
      && shown <= line && Valid(shown) && |Runes(shown)| == MAXIMUM_LINE_RUNES
      && TruncateLine(line) == shown + [0xE2, 0x80, 0xA6]
  {
    if |Runes(line)| > MAXIMUM_LINE_RUNES {
      RunesAreThePrefix(line, MAXIMUM_LINE_RUNES);
    }
  }

  /** The lines of a file as they are shown: without a carriage return, and
      truncated by `show`, for which the server has truncateLine. */
  function Shown(lines: seq<seq<byte>>, show: seq<byte> -> seq<byte>): (texts: seq<seq<byte>>)
    ensures |texts| == |lines|
    ensures forall i | 0 <= i < |texts| :: texts[i] == show(TrimReturn(lines[i]))
  {
    seq(|lines|, i requires 0 <= i < |lines| => show(TrimReturn(lines[i])))
  }

  /** The texts from first up to end, without the matched one. */
  function Surroundings(texts: seq<seq<byte>>, index: nat, first: nat, end: nat): seq<ContextLine>
    requires first <= end <= |texts|
  {
    if first == end then []
    else if end - 1 == index then Surroundings(texts, index, first, end - 1)
    else Surroundings(texts, index, first, end - 1) + [ContextLine(end, texts[end - 1])]
  }

  function First(index: nat, count: nat): nat {
    if index < count then 0 else index - count
  }

  function End(size: nat, index: nat, count: nat): (r: nat)
    requires index < size
    ensures First(index, count) < r <= size
  {
    if index + count < size then index + count + 1 else size
  }

  function Context(texts: seq<seq<byte>>, index: nat, count: nat): seq<ContextLine>
    requires index < |texts|
  {
    Surroundings(texts, index, First(index, count), End(|texts|, index, count))
  }

  /** contextLines: up to count lines on each side, as far as the file goes. */
  method ContextLines(lines: seq<seq<byte>>, index: nat, count: nat, show: seq<byte> -> seq<byte>) returns (context: seq<ContextLine>)
    requires index < |lines|
    ensures context == Context(Shown(lines, show), index, count)
  {
    var first := index - count;
    if first < 0 {
      first := 0;
    }
    var last := index + count;
    if last > |lines| - 1 {
      last := |lines| - 1;
    }
    context := [];
    ghost var texts := Shown(lines, show);
    for number := first to last + 1
      invariant context == Surroundings(texts, index, first, number)
    {
      if number != index {
        var text := show(TrimReturn(lines[number]));
        assert text == texts[number];
        context := context + [ContextLine(number + 1, text)];
      }
    }
  }

  /** The k-th line when the matched one is passed over. */
  function Skip(index: nat, k: nat): nat {
    if k < index then k else k + 1
  }

  function LineAt(texts: seq<seq<byte>>, n: nat): ContextLine
    requires n < |texts|
  {
    ContextLine(n + 1, texts[n])
  }

  function Size(index: nat, first: nat, end: nat): nat
    requires first <= end && first <= index
  {
    if index < end then end - first - 1 else end - first
  }

  lemma {:induction false} SurroundingsAre(texts: seq<seq<byte>>, index: nat, first: nat, end: nat)
    requires first <= end <= |texts| && first <= index
    ensures |Surroundings(texts, index, first, end)| == Size(index, first, end)
    ensures forall j | 0 <= j < Size(index, first, end) ::
      Surroundings(texts, index, first, end)[j] == LineAt(texts, Skip(index, first + j))
    decreases end
  {
    if first < end {
      SurroundingsAre(texts, index, first, end - 1);
    }
  }

  /** The context shows every line at most count away from the match but the
      matched one, each once, in order, under its own number. */
  lemma ContextIsAround(texts: seq<seq<byte>>, index: nat, count: nat)
    requires index < |texts|
    ensures First(index, count) == Max(0, index - count) && End(|texts|, index, count) == Min(|texts|, index + count + 1)
    ensures |Context(texts, index, count)| == End(|texts|, index, count) - First(index, count) - 1
    ensures forall j | 0 <= j < |Context(texts, index, count)| ::
      Context(texts, index, count)[j] == LineAt(texts, Skip(index, First(index, count) + j))
  {
    SurroundingsAre(texts, index, First(index, count), End(|texts|, index, count));
  }

  function MatchAt(texts: seq<seq<byte>>, index: nat, count: nat, r: Range): Match
    requires index < |texts|
  {
    Match(index + 1, r.start + 1, texts[index], Context(texts, index, count))
  }

  function Located(texts: seq<seq<byte>>, index: nat, count: nat, ranges: seq<Range>): (r: seq<Match>)
    requires index < |texts|
    ensures |r| == |ranges|
  {
    seq(|ranges|, i requires 0 <= i < |ranges| => MatchAt(texts, index, count, ranges[i]))
  }

  /** All matches of the first n lines, in the order of lines and columns. */
  function AllMatches(lines: seq<seq<byte>>, n: nat, o: Options): seq<Match>
    requires n <= |lines|
  {
    if n == 0 then []
    else AllMatches(lines, n - 1, o) + Located(Shown(lines, o.show), n - 1, o.contextLines, o.matcher(TrimReturn(lines[n - 1])))
  }

  function FirstOf(matches: seq<Match>, n: nat): seq<Match> {
    if |matches| <= n then matches else matches[..n]
  }

  lemma {:induction false} MorePrefix(lines: seq<seq<byte>>, n: nat, m: nat, o: Options)
    requires n <= m <= |lines|
    ensures AllMatches(lines, n, o) <= AllMatches(lines, m, o)
    decreases m
  {
    if n < m {
      MorePrefix(lines, n, m - 1, o);
    }
  }

  lemma TakeOneMore(all: seq<Match>, n: nat, m: Match)
    requires n < |all| && all[n] == m
    ensures all[..n] + [m] == all[..n + 1]
  {
  }

  lemma LocatedAt(texts: seq<seq<byte>>, index: nat, count: nat, ranges: seq<Range>, matches: seq<Match>, i: nat)
    requires index < |texts| && i < |ranges|
    ensures (matches + Located(texts, index, count, ranges))[|matches| + i] == MatchAt(texts, index, count, ranges[i])
  {
  }

  /** The matches of one line are added one by one, as far as there is room. */
  method AddLine(matches: seq<Match>, lines: seq<seq<byte>>, index: nat, ranges: seq<Range>, o: Options)
    returns (more: seq<Match>)
    requires index < |lines| && |matches| < o.maxResults
    ensures more == FirstOf(matches + Located(Shown(lines, o.show), index, o.contextLines, ranges), o.maxResults)
  {
    more := matches;
    ghost var texts := Shown(lines, o.show);
    ghost var all := matches + Located(texts, index, o.contextLines, ranges);
    for i := 0 to |ranges|
      invariant more == all[..|matches| + i]
      invariant |more| < o.maxResults
    {
      var context := ContextLines(lines, index, o.contextLines, o.show);
      var found := Match(index + 1, ranges[i].start + 1, o.show(TrimReturn(lines[index])), context);
      LocatedAt(texts, index, o.contextLines, ranges, matches, i);
      assert found == MatchAt(texts, index, o.contextLines, ranges[i]);
      TakeOneMore(all, |matches| + i, found);
      more := more + [found];
      if |more| >= o.maxResults {
        return;
      }
    }
  }

  /** searchContent: the first maxResults of all matches, in order. */
  method SearchContent(content: seq<byte>, o: Options) returns (matches: seq<Match>)
    requires o.maxResults >= 1
    ensures matches == FirstOf(AllMatches(FileLines(content), |FileLines(content)|, o), o.maxResults)
  {
    var lines := FileLines(content);
    matches := [];
    for index := 0 to |lines|
      invariant matches == AllMatches(lines, index, o)
      invariant |matches| < o.maxResults
    {
      matches := AddLine(matches, lines, index, o.matcher(TrimReturn(lines[index])), o);
      if |matches| >= o.maxResults {
        FullAlready(lines, index + 1, o);
        return;
      }
    }
  }

  lemma FullAlready(lines: seq<seq<byte>>, n: nat, o: Options)
    requires n <= |lines| && |AllMatches(lines, n, o)| >= o.maxResults
    ensures FirstOf(AllMatches(lines, n, o), o.maxResults) == FirstOf(AllMatches(lines, |lines|, o), o.maxResults)
  {
    MorePrefix(lines, n, |lines|, o);
  }

  /******* What the matches are *******/

  /** The matcher reports non-empty ranges from left to right. */
  ghost predicate LeftToRight(matcher: seq<byte> -> seq<Range>) {
    forall line :: Disjoint(matcher(line)) && forall r | r in matcher(line) :: r.start < r.end
  }

  /** With such a matcher, the matches are strictly ordered by line and column. */
  lemma {:induction false} MatchesOrdered(lines: seq<seq<byte>>, n: nat, o: Options)
    requires n <= |lines| && LeftToRight(o.matcher)
    ensures var all := AllMatches(lines, n, o);
            && (forall i, j | 0 <= i < j < |all| :: Earlier(all[i], all[j]))
            && (forall m | m in all :: 1 <= m.line <= n)
  {
    if n > 0 {
      MatchesOrdered(lines, n - 1, o);
      var ranges := o.matcher(TrimReturn(lines[n - 1]));
      assert forall i | 0 <= i < |ranges| :: ranges[i] in ranges;
    }
  }

  /** A match of line `index`, at one of the ranges that the matcher reports there. */
  ghost predicate IsMatchOf(lines: seq<seq<byte>>, index: nat, o: Options, r: Range, m: Match) {
    index < |lines| && r in o.matcher(TrimReturn(lines[index])) && m == MatchAt(Shown(lines, o.show), index, o.contextLines, r)
  }

  /** The matches are those of the lines: all of them, and no others. */
  lemma {:induction false} MatchesOfLines(lines: seq<seq<byte>>, n: nat, o: Options, m: Match)
    requires n <= |lines|
    ensures m in AllMatches(lines, n, o) <==>
      exists index: nat, r :: index < n && IsMatchOf(lines, index, o, r, m)
  {
    if n > 0 {
      var last := n - 1;
      MatchesOfLines(lines, last, o, m);
      var ranges := o.matcher(TrimReturn(lines[last]));
      var here := Located(Shown(lines, o.show), last, o.contextLines, ranges);
      if m in here {
        var i :| 0 <= i < |here| && here[i] == m;
        assert IsMatchOf(lines, last, o, ranges[i], m);
      }
      if r :| IsMatchOf(lines, last, o, r, m) {
        var i :| 0 <= i < |ranges| && ranges[i] == r;
        assert here[i] == m;
      }
    }
  }

  /******* Literal search of a file *******/

  function LiteralOptions(needle: seq<byte>, contextLines: nat, maxResults: nat): Options
    requires needle != []
  {
    Options(Literal(needle), TruncateLine, contextLines, maxResults)
  }

  predicate OccursIn(lines: seq<seq<byte>>, needle: seq<byte>, index: nat, k: nat) {
    index < |lines| && OccursAt(TrimReturn(lines[index]), needle, k)
  }

  /** The match is at or before the start, and reaches over it. */
  predicate Reports(m: Match, needle: seq<byte>, index: nat, k: nat) {
    m.line == index + 1 && m.column <= k + 1 < m.column + |needle|
  }

  /** The matches of a literal search stand in strict order of line and column. */
  lemma LiteralMatchesOrdered(lines: seq<seq<byte>>, needle: seq<byte>, o: Options)
    requires needle != [] && o.matcher == Literal(needle)
    ensures forall i, j | 0 <= i < j < |AllMatches(lines, |lines|, o)| ::
      Earlier(AllMatches(lines, |lines|, o)[i], AllMatches(lines, |lines|, o)[j])
  {
    forall line ensures Disjoint(o.matcher(line)) && forall r | r in o.matcher(line) :: r.start < r.end {
      LiteralIsGreedy(needle, line);
    }
    MatchesOrdered(lines, |lines|, o);
  }

  /** Every match is an occurrence of the literal in its line. */
  lemma LiteralMatchesOccur(lines: seq<seq<byte>>, needle: seq<byte>, o: Options, m: Match)
    requires needle != [] && o.matcher == Literal(needle) && m in AllMatches(lines, |lines|, o)
    ensures m.line >= 1 && m.column >= 1 && OccursIn(lines, needle, m.line - 1, m.column - 1)
  {
    MatchesOfLines(lines, |lines|, o, m);
    var index: nat, r :| index < |lines| && IsMatchOf(lines, index, o, r, m);
    LiteralOccurs(needle, TrimReturn(lines[index]), r);
    assert m.line == index + 1 && m.column == r.start + 1;
  }

  /** Every occurrence in any line is a match, or begins inside an earlier one. */
  lemma LiteralMissesNothing(lines: seq<seq<byte>>, needle: seq<byte>, o: Options, index: nat, k: nat)
    requires needle != [] && o.matcher == Literal(needle) && OccursIn(lines, needle, index, k)
    ensures exists m :: m in AllMatches(lines, |lines|, o) && Reports(m, needle, index, k)
  {
    var line := TrimReturn(lines[index]);
    LiteralIsGreedy(needle, line);
    var r :| r in Literal(needle)(line) && Covers(r, k);
    var m := MatchAt(Shown(lines, o.show), index, o.contextLines, r);
    assert IsMatchOf(lines, index, o, r, m);
    MatchesOfLines(lines, |lines|, o, m);
    assert Reports(m, needle, index, k);
  }

  /** searchContent with the literal matcher: the first maxResults, in the order of
      line and column, of the leftmost greedy occurrences of every line. */
  method SearchLiteral(content: seq<byte>, needle: seq<byte>, contextLines: nat, maxResults: nat) returns (matches: seq<Match>)
    requires needle != [] && maxResults >= 1
    ensures var lines := FileLines(content);
      matches == FirstOf(AllMatches(lines, |lines|, LiteralOptions(needle, contextLines, maxResults)), maxResults)
    ensures forall i, j | 0 <= i < j < |matches| :: Earlier(matches[i], matches[j])
    ensures forall m | m in matches ::
      m.line >= 1 && m.column >= 1 && OccursIn(FileLines(content), needle, m.line - 1, m.column - 1)
    ensures |matches| < maxResults ==> forall index: nat, k: nat | OccursIn(FileLines(content), needle, index, k) ::
      exists m :: m in matches && Reports(m, needle, index, k)
  {
    var o := LiteralOptions(needle, contextLines, maxResults);
    ghost var lines := FileLines(content);
    matches := SearchContent(content, o);
    LiteralMatchesOrdered(lines, needle, o);
    forall m | m in matches
      ensures m.line >= 1 && m.column >= 1 && OccursIn(lines, needle, m.line - 1, m.column - 1)
    {
      LiteralMatchesOccur(lines, needle, o, m);
    }
    if |matches| < maxResults {
      forall index: nat, k: nat | OccursIn(lines, needle, index, k)
        ensures exists m :: m in matches && Reports(m, needle, index, k)
      {
        LiteralMissesNothing(lines, needle, o, index, k);
      }
    }
  }
}
