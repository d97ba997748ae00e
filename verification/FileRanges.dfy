/**
 Text files in ranges of lines: each reply carries whole lines within a byte
 budget and the line at which the next request continues.
 */
module FileRanges {
  import opened Wrappers
  import opened Utf8
  import opened JsonText

  const MAXIMUM_READABLE_BYTES := 0x10_0000
  const MAXIMUM_FILE_TEXT_BYTES := 56 * 1024
  const BINARY_PROBE_BYTES := 8192

  /******* Lines *******/

  function IndexOf(s: seq<byte>, b: byte): (i: nat)
    ensures i <= |s| && b !in s[..i] && (i < |s| ==> s[i] == b)
  {
    if s == [] || s[0] == b then 0 else 1 + IndexOf(s[1..], b)
  }

  /** strings.Split at newlines */
  function Split(s: seq<byte>): (lines: seq<seq<byte>>)
    ensures |lines| > 0
    decreases |s|
  {
    var i := IndexOf(s, NEWLINE);
    if i == |s| then [s] else [s[..i]] + Split(s[i + 1..])
  }

  /** strings.Join with newlines */
  function Join(lines: seq<seq<byte>>): seq<byte> {
    if lines == [] then []
    else if |lines| == 1 then lines[0]
    else lines[0] + [NEWLINE] + Join(lines[1..])
  }

  /** splitTextLines: the empty element after a trailing newline is dropped. */
  function SplitTextLines(content: seq<byte>): seq<seq<byte>> {
    if content == [] then []
    else
      var lines := Split(content);
      if lines[|lines| - 1] == [] then lines[..|lines| - 1] else lines
  }

  predicate TrailingNewline(content: seq<byte>) {
    content != [] && content[|content| - 1] == NEWLINE
  }

  lemma {:induction false} JoinSplit(s: seq<byte>)
    ensures Join(Split(s)) == s
    decreases |s|
  {
    var i := IndexOf(s, NEWLINE);
    if i < |s| {
      JoinSplit(s[i + 1..]);
      JoinCons(s[..i], Split(s[i + 1..]));
      Around(s, i);
    }
  }

  lemma JoinCons(line: seq<byte>, rest: seq<seq<byte>>)
    requires rest != []
    ensures Join([line] + rest) == line + [NEWLINE] + Join(rest)
  {
    assert ([line] + rest)[1..] == rest;
  }

  lemma Around(s: seq<byte>, i: nat)
    requires i < |s| && s[i] == NEWLINE
    ensures s == s[..i] + [NEWLINE] + s[i + 1..]
  {
  }

  lemma {:induction false} LastLineEmpty(s: seq<byte>)
    ensures var lines := Split(s);
            lines[|lines| - 1] == [] <==> s == [] || TrailingNewline(s)
    decreases |s|
  {
    var i := IndexOf(s, NEWLINE);
    if i < |s| {
      var rest := Split(s[i + 1..]);
      LastLineEmpty(s[i + 1..]);
      assert ([s[..i]] + rest)[|rest|] == rest[|rest| - 1];
    } else if s != [] {
      assert s[|s| - 1] in s[..i];
    }
  }

  lemma {:induction false} JoinAppend(a: seq<seq<byte>>, b: seq<seq<byte>>)
    requires a != [] && b != []
    ensures Join(a + b) == Join(a) + [NEWLINE] + Join(b)
  {
    if |a| == 1 {
      assert (a + b)[1..] == b;
    } else {
      JoinAppend(a[1..], b);
      assert (a + b)[1..] == a[1..] + b;
    }
  }

  /** The lines and the trailing newline give the file back. */
  lemma LinesRebuild(content: seq<byte>)
    ensures Join(SplitTextLines(content)) + (if TrailingNewline(content) then [NEWLINE] else []) == content
  {
    if content != [] {
      var lines := Split(content);
      var n := |lines| - 1;
      JoinSplit(content);
      LastLineEmpty(content);
      if lines[n] == [] {
        assert lines == lines[..n] + [lines[n]];
        if n > 0 {
          JoinAppend(lines[..n], [lines[n]]);
        }
      }
    }
  }

  lemma NewlineCuts(s: seq<byte>, i: nat)
    requires Valid(s) && i < |s| && s[i] == NEWLINE
    ensures Valid(s[..i]) && Valid(s[i + 1..])
  {
    CutValid(s, i);
    assert s[i..][1..] == s[i + 1..];
  }

  /** The lines of valid text are valid text. */
  lemma {:induction false} SplitValid(s: seq<byte>)
    requires Valid(s)
    ensures forall line | line in Split(s) :: Valid(line)
    decreases |s|
  {
    var i := IndexOf(s, NEWLINE);
    if i < |s| {
      NewlineCuts(s, i);
      SplitValid(s[i + 1..]);
    }
  }

  ghost predicate AllValid(lines: seq<seq<byte>>) {
    forall line | line in lines :: Valid(line)
  }

  lemma {:induction false} JoinIsValid(lines: seq<seq<byte>>)
    requires AllValid(lines)
    ensures Valid(Join(lines))
  {
    if |lines| > 1 {
      JoinIsValid(lines[1..]);
      JoinValid(lines[0], [NEWLINE]);
      JoinValid(lines[0] + [NEWLINE], Join(lines[1..]));
    }
  }

  /** One more line costs its own escaped length and two bytes for the escaped newline. */
  lemma JoinedLength(lines: seq<seq<byte>>, line: seq<byte>)
    requires AllValid(lines) && Valid(line)
    ensures EncodedLength(Join(lines + [line])) ==
            EncodedLength(Join(lines)) + (if lines == [] then 0 else 2) + EncodedLength(line)
  {
    if lines == [] {
      assert lines + [line] == [line];
    } else {
      JoinAppend(lines, [line]);
      JoinIsValid(lines);
      var newline := [NEWLINE];
      assert newline[..1] == newline && newline[1..] == [];
      JoinValid(Join(lines), newline);
      EncodedLengthJoin(Join(lines), newline);
      EncodedLengthJoin(Join(lines) + newline, line);
      EncodedStep(newline, 1);
    }
  }

  /******* One reply *******/

  datatype Kind = NotAFile | TooLarge | Binary | Text

  datatype File = File(kind: Kind, trailingNewline: bool, totalLines: nat, startLine: nat, endLine: nat, content: seq<byte>)

  datatype Meta = Meta(truncated: bool, nextStartLine: Option<nat>)

  /** What Gogs says about a path: whether it is a file, its size, and its bytes. */
  datatype Source = Source(isFile: bool, size: nat, data: seq<byte>)

  predicate IsBinary(content: seq<byte>) {
    var prefix := content[..if |content| <= BINARY_PROBE_BYTES then |content| else BINARY_PROBE_BYTES];
    (0 as byte) in prefix || !Valid(content)
  }

  predicate IsText(source: Source) {
    source.isFile && source.size <= MAXIMUM_READABLE_BYTES && !IsBinary(source.data)
  }

  predicate Fits(lines: seq<seq<byte>>) {
    EncodedLength(Join(lines)) <= MAXIMUM_FILE_TEXT_BYTES
  }

  /** The end of the longest run of lines from start, up to last, that fits the budget. */
  function RangeEnd(lines: seq<seq<byte>>, start: nat, end: nat, last: nat): (r: nat)
    requires start <= end <= last <= |lines|
    ensures end <= r <= last
    decreases last - end
  {
    if end < last && Fits(lines[start..end + 1]) then RangeEnd(lines, start, end + 1, last) else end
  }

  function RequestedEnd(lines: seq<seq<byte>>, start: nat, lineCount: nat): (r: nat)
    requires start <= |lines|
    ensures start <= r <= |lines|
  {
    if start + lineCount <= |lines| then start + lineCount else |lines|
  }

  /** A reply that shows the lines from index start up to index end. */
  ghost predicate Shows(file: File, meta: Meta, lines: seq<seq<byte>>, start: nat, end: nat)
    requires start < |lines|
  {
    && file.startLine == start + 1
    && file.endLine == end
    && meta.truncated == (end < |lines| || !Fits([lines[start]]))
    && meta.nextStartLine == (if end < |lines| then Some(end + 1) else None)
  }

  /** The reply for a request that begins inside the file: a range of whole lines,
      or the beginning of one line that is over the budget by itself. */
  ghost predicate Answers(lines: seq<seq<byte>>, start: nat, lineCount: nat, file: File, meta: Meta)
    requires start < |lines|
  {
    match WholeLines(lines, start, lineCount)
    case Some(end) => Shows(file, meta, lines, start, end) && file.content == Join(lines[start..end])
    case None =>
      Shows(file, meta, lines, start, start + 1) && LongestWithin(lines[start], MAXIMUM_FILE_TEXT_BYTES, file.content)
  }

  /** Where the range of whole lines ends, unless not even the first line fits. */
  ghost function WholeLines(lines: seq<seq<byte>>, start: nat, lineCount: nat): (end: Option<nat>)
    requires start < |lines|
    ensures end.Some? ==> start <= end.value <= |lines|
  {
    if Fits([lines[start]]) then Some(RangeEnd(lines, start, start, RequestedEnd(lines, start, lineCount))) else None
  }

  /** boundedFile */
  method BoundedFile(source: Source, startLine: nat, lineCount: nat) returns (file: File, meta: Meta)
    requires startLine >= 1 && lineCount >= 1
    ensures file.kind == if !source.isFile then NotAFile
                         else if source.size > MAXIMUM_READABLE_BYTES then TooLarge
                         else if IsBinary(source.data) then Binary
                         else Text
    ensures file.kind != Text ==> file.content == [] && meta.nextStartLine.None? && (meta.truncated <==> file.kind == TooLarge)
    ensures file.kind == Text ==>
              file.trailingNewline == TrailingNewline(source.data) && file.totalLines == |SplitTextLines(source.data)|
    ensures EncodedLength(file.content) <= MAXIMUM_FILE_TEXT_BYTES
    ensures file.kind == Text && startLine > file.totalLines ==> file.content == [] && meta == Meta(false, None)
    ensures file.kind == Text && startLine <= file.totalLines ==>
              Answers(SplitTextLines(source.data), startLine - 1, lineCount, file, meta)
  {
    file := File(NotAFile, false, 0, 0, 0, []);
    meta := Meta(false, None);
    if !source.isFile {
      return;
    }
    if source.size > MAXIMUM_READABLE_BYTES {
      return file.(kind := TooLarge), meta.(truncated := true);
    }
    if IsBinary(source.data) {
      return file.(kind := Binary), meta;
    }
    var lines := SplitTextLines(source.data);
    file := File(Text, TrailingNewline(source.data), |lines|, 0, 0, []);
    if startLine > |lines| {
      return;
    }
    SplitValid(source.data);
    file, meta := SelectLines(file, lines, startLine - 1, lineCount);
  }

  /** What one more line does to the budget and to the range. */
  lemma NextLine(lines: seq<seq<byte>>, start: nat, index: nat, last: nat)
    requires start <= index < last <= |lines| && AllValid(lines)
    ensures EncodedLength(Join(lines[start..index + 1])) ==
            EncodedLength(Join(lines[start..index])) + (if index == start then 0 else 2) + EncodedLength(lines[index])
    ensures lines[start..index + 1] == lines[start..index] + [lines[index]]
    ensures RangeEnd(lines, start, index, last) ==
            if Fits(lines[start..index + 1]) then RangeEnd(lines, start, index + 1, last) else index
    ensures index == start ==> (Fits([lines[start]]) <==> Fits(lines[start..index + 1]))
    ensures Fits(lines[start..index + 1]) <==>
            EncodedLength(Join(lines[start..index])) + (if index == start then 0 else 2) + EncodedLength(lines[index])
              <= MAXIMUM_FILE_TEXT_BYTES
  {
    assert index == start ==> lines[start..index + 1] == [lines[start]];
    assert lines[start..index + 1] == lines[start..index] + [lines[index]];
    JoinedLength(lines[start..index], lines[index]);
  }

  /** The lines from start up to index fit and are part of the range. */
  ghost predicate Selected(lines: seq<seq<byte>>, start: nat, index: nat, last: nat, selected: seq<seq<byte>>, selectedBytes: nat) {
    && start <= index <= last <= |lines| && start < last
    && selected == lines[start..index]
    && selectedBytes == EncodedLength(Join(selected)) && selectedBytes <= MAXIMUM_FILE_TEXT_BYTES
    && RangeEnd(lines, start, index, last) == RangeEnd(lines, start, start, last)
    && (index > start ==> Fits([lines[start]]))
  }

  lemma Unselected(lines: seq<seq<byte>>, start: nat, last: nat)
    requires start < last <= |lines|
    ensures Selected(lines, start, start, last, [], 0)
  {
  }

  /** The next line is selected if it fits; if not, the range ends before it. */
  lemma SelectNext(lines: seq<seq<byte>>, start: nat, index: nat, last: nat, selected: seq<seq<byte>>, selectedBytes: nat)
    requires Selected(lines, start, index, last, selected, selectedBytes) && index < last && AllValid(lines)
    ensures var bytes := selectedBytes + (if |selected| > 0 then 2 else 0) + EncodedLength(lines[index]);
      if bytes <= MAXIMUM_FILE_TEXT_BYTES then Selected(lines, start, index + 1, last, selected + [lines[index]], bytes)
      else RangeEnd(lines, start, start, last) == index && (index == start <==> !Fits([lines[start]]))
  {
    NextLine(lines, start, index, last);
  }

  lemma AnswersRange(lines: seq<seq<byte>>, start: nat, lineCount: nat, end: nat, file: File, meta: Meta)
    requires start < |lines| && Fits([lines[start]])
    requires end == RangeEnd(lines, start, start, RequestedEnd(lines, start, lineCount))
    requires file.startLine == start + 1 && file.endLine == end && file.content == Join(lines[start..end])
    requires meta == if end < |lines| then Meta(true, Some(end + 1)) else Meta(false, None)
    ensures Answers(lines, start, lineCount, file, meta)
  {
    assert WholeLines(lines, start, lineCount) == Some(end);
  }

  lemma AnswersCut(lines: seq<seq<byte>>, start: nat, lineCount: nat, file: File, meta: Meta)
    requires start < |lines| && !Fits([lines[start]]) && LongestWithin(lines[start], MAXIMUM_FILE_TEXT_BYTES, file.content)
    requires file.startLine == start + 1 && file.endLine == start + 1
    requires meta == Meta(true, if start + 1 < |lines| then Some(start + 2) else None)
    ensures Answers(lines, start, lineCount, file, meta)
  {
  }

  /** A line that alone exceeds the budget is cut. */
  method CutLine(empty: File, lines: seq<seq<byte>>, index: nat, lineCount: nat) returns (file: File, meta: Meta)
    requires index < |lines| && AllValid(lines) && !Fits([lines[index]])
    ensures file.kind == empty.kind && file.trailingNewline == empty.trailingNewline && file.totalLines == empty.totalLines
    ensures EncodedLength(file.content) <= MAXIMUM_FILE_TEXT_BYTES
    ensures Answers(lines, index, lineCount, file, meta)
  {
    var prefix := BoundedJsonPrefix(lines[index], MAXIMUM_FILE_TEXT_BYTES);
    file := empty.(startLine := index + 1, endLine := index + 1, content := prefix.value);
    meta := Meta(true, if index + 1 < |lines| then Some(index + 2) else None);
    AnswersCut(lines, index, lineCount, file, meta);
  }

  /** The loop of boundedFile over the requested lines. */
  method SelectLines(empty: File, lines: seq<seq<byte>>, start: nat, lineCount: nat) returns (file: File, meta: Meta)
    requires start < |lines| && lineCount >= 1 && AllValid(lines)
    requires empty.startLine == 0
    ensures file.kind == empty.kind && file.trailingNewline == empty.trailingNewline && file.totalLines == empty.totalLines
    ensures EncodedLength(file.content) <= MAXIMUM_FILE_TEXT_BYTES
    ensures Answers(lines, start, lineCount, file, meta)
  {
    var requestedEnd := RequestedEnd(lines, start, lineCount);
    var selected: seq<seq<byte>> := [];
    var selectedBytes: nat := 0;
    var index := start;
    Unselected(lines, start, requestedEnd);
    while index < requestedEnd
      invariant Selected(lines, start, index, requestedEnd, selected, selectedBytes)
    {
      var separatorBytes := if |selected| > 0 then 2 else 0;
      var lineBytes := EncodedLength(lines[index]);
      SelectNext(lines, start, index, requestedEnd, selected, selectedBytes);
      if selectedBytes + separatorBytes + lineBytes > MAXIMUM_FILE_TEXT_BYTES {
        if |selected| == 0 {
          file, meta := CutLine(empty, lines, index, lineCount);
        } else {
          file := empty.(startLine := start + 1, endLine := index, content := Join(selected));
          meta := Meta(true, Some(index + 1));
          AnswersRange(lines, start, lineCount, index, file, meta);
        }
        return;
      }
      selected := selected + [lines[index]];
      selectedBytes := selectedBytes + separatorBytes + lineBytes;
      index := index + 1;
      assert Selected(lines, start, index, requestedEnd, selected, selectedBytes);
    }
    file := empty.(startLine := start + 1, endLine := requestedEnd, content := Join(selected));
    meta := if requestedEnd < |lines| then Meta(true, Some(requestedEnd + 1)) else Meta(false, None);
    AnswersRange(lines, start, lineCount, requestedEnd, file, meta);
  }

  /******* The whole file *******/

  /** One reply as the caller sees it: the indices of its lines and its content. */
  datatype Reply = Reply(start: nat, end: nat, content: seq<byte>)

  /** A client that follows next_start_line. It may ask for another count each
      time. `cut` says what the reply shows of a line that is over the budget. */
  function ReadOn(lines: seq<seq<byte>>, start: nat, counts: nat -> nat, cut: nat -> seq<byte>): seq<Reply>
    requires start < |lines| && forall i :: counts(i) >= 1
    decreases |lines| - start
  {
    if Fits([lines[start]]) then
      RangeProgress(lines, start, counts(start));
      var end := RangeEnd(lines, start, start, RequestedEnd(lines, start, counts(start)));
      var reply := Reply(start, end, Join(lines[start..end]));
      if end < |lines| then [reply] + ReadOn(lines, end, counts, cut) else [reply]
    else
      var reply := Reply(start, start + 1, cut(start));
      if start + 1 < |lines| then [reply] + ReadOn(lines, start + 1, counts, cut) else [reply]
  }

  lemma RangeProgress(lines: seq<seq<byte>>, start: nat, lineCount: nat)
    requires start < |lines| && lineCount >= 1 && Fits([lines[start]])
    ensures RangeEnd(lines, start, start, RequestedEnd(lines, start, lineCount)) > start
  {
    assert lines[start..start + 1] == [lines[start]];
  }

  /** A range is maximal: it fits, and it ends only where the request or the
      file ends, or where the next line would break the budget. */
  lemma {:induction false} RangeIsMaximal(lines: seq<seq<byte>>, start: nat, end: nat, last: nat)
    requires start <= end <= last <= |lines| && Fits(lines[start..end])
    ensures var r := RangeEnd(lines, start, end, last);
            Fits(lines[start..r]) && (r == last || !Fits(lines[start..r + 1]))
    decreases last - end
  {
    if end < last && Fits(lines[start..end + 1]) {
      RangeIsMaximal(lines, start, end + 1, last);
    }
  }

  /** The replies cover the lines from `start` to the end of the file, in order, each line once. */
  ghost predicate VisitsAll(replies: seq<Reply>, start: nat, end: nat) {
    && |replies| > 0
    && replies[0].start == start
    && replies[|replies| - 1].end == end
    && (forall i | 0 <= i < |replies| :: replies[i].start < replies[i].end)
    && (forall i | 0 < i < |replies| :: replies[i].start == replies[i - 1].end)
  }

  lemma {:induction false} EveryLineOnce(lines: seq<seq<byte>>, start: nat, counts: nat -> nat, cut: nat -> seq<byte>)
    requires start < |lines| && forall i :: counts(i) >= 1
    ensures VisitsAll(ReadOn(lines, start, counts, cut), start, |lines|)
    decreases |lines| - start
  {
    var replies := ReadOn(lines, start, counts, cut);
    var end := replies[0].end;
    if Fits([lines[start]]) {
      RangeProgress(lines, start, counts(start));
    }
    if end < |lines| {
      EveryLineOnce(lines, end, counts, cut);
      VisitsMore(replies[0], ReadOn(lines, end, counts, cut), |lines|);
    }
  }

  lemma VisitsMore(first: Reply, rest: seq<Reply>, last: nat)
    requires VisitsAll(rest, first.end, last) && first.start < first.end
    ensures VisitsAll([first] + rest, first.start, last)
  {
  }

  function Contents(replies: seq<Reply>): (r: seq<seq<byte>>)
    ensures |r| == |replies|
  {
    seq(|replies|, i requires 0 <= i < |replies| => replies[i].content)
  }

  /** If no line is over the budget, the joined replies are the joined lines. */
  lemma {:induction false} RepliesRebuildLines(lines: seq<seq<byte>>, start: nat, counts: nat -> nat, cut: nat -> seq<byte>)
    requires start < |lines| && (forall i :: counts(i) >= 1) && forall line | line in lines :: Fits([line])
    ensures Join(Contents(ReadOn(lines, start, counts, cut))) == Join(lines[start..])
    decreases |lines| - start
  {
    RangeProgress(lines, start, counts(start));
    var end := RangeEnd(lines, start, start, RequestedEnd(lines, start, counts(start)));
    assert lines[start] in lines;
    if end < |lines| {
      var rest := Contents(ReadOn(lines, end, counts, cut));
      RepliesRebuildLines(lines, end, counts, cut);
      OneMoreReply(Reply(start, end, Join(lines[start..end])), ReadOn(lines, end, counts, cut));
      JoinRange(lines, start, end);
      JoinAppend([Join(lines[start..end])], rest);
    } else {
      assert lines[start..end] == lines[start..];
      assert Contents(ReadOn(lines, start, counts, cut)) == [Join(lines[start..])];
    }
  }

  lemma OneMoreReply(reply: Reply, rest: seq<Reply>)
    ensures Contents([reply] + rest) == [reply.content] + Contents(rest)
  {
  }

  lemma JoinRange(lines: seq<seq<byte>>, start: nat, end: nat)
    requires start < end < |lines|
    ensures Join(lines[start..]) == Join(lines[start..end]) + [NEWLINE] + Join(lines[end..])
  {
    assert lines[start..] == lines[start..end] + lines[end..];
    JoinAppend(lines[start..end], lines[end..]);
  }

  /** Reading a text file to its end gives back its bytes, if no line is over the budget. */
  lemma FileRebuilds(source: Source, counts: nat -> nat, cut: nat -> seq<byte>)
    requires IsText(source) && source.data != [] && forall i :: counts(i) >= 1
    requires forall line | line in SplitTextLines(source.data) :: Fits([line])
    ensures var lines := SplitTextLines(source.data);
            && lines != []
            && Join(Contents(ReadOn(lines, 0, counts, cut)))
                 + (if TrailingNewline(source.data) then [NEWLINE] else []) == source.data
  {
    var lines := SplitTextLines(source.data);
    LinesNotEmpty(source.data);
    RepliesRebuildLines(lines, 0, counts, cut);
    assert lines[0..] == lines;
    LinesRebuild(source.data);
  }

  lemma LinesNotEmpty(content: seq<byte>)
    requires content != []
    ensures SplitTextLines(content) != []
  {
    JoinSplit(content);
  }
}
