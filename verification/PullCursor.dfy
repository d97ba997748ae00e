/**
 Listing pull requests page by page: the cursor is the number of the last pull
 request that a call examined, whether or not the filter kept it.
 */
module PullCursor {
  import opened Wrappers

  const DEFAULT_PULL_LIMIT := 30
  const MAXIMUM_PULL_LIMIT := 100
  const MAXIMUM_SCAN := 100

  datatype Ref = Ref(number: int, headSha: string)

  datatype Issue = Issue(number: int, title: string, state: string)

  /** What Gogs answers for one issue number. Hidden means not found or forbidden. */
  datatype Answer = Found(issue: Issue) | Hidden | Failed

  datatype Summary = Summary(number: int, title: string, state: string, headSha: string)

  datatype Page = Page(summaries: seq<Summary>, total: nat, next: int)

  datatype ListError = InvalidArgument | RequestFailed

  /** The refs are sorted by number, each number once, all positive. */
  ghost predicate Ascending(refs: seq<Ref>) {
    && (forall i | 0 <= i < |refs| :: refs[i].number > 0)
    && (forall i, j | 0 <= i < j < |refs| :: refs[i].number < refs[j].number)
  }

  /** What the listing shows of one ref: nothing or one summary. */
  function Shown(ref: Ref, state: string, issues: int -> Answer): (r: seq<Summary>)
    ensures |r| <= 1
  {
    match issues(ref.number)
    case Found(issue) =>
      if state == "all" || issue.state == state
      then [Summary(issue.number, issue.title, issue.state, ref.headSha)] else []
    case _ => []
  }

  /** The simple answer: every readable pull request in the state, newest first. */
  function Wanted(refs: seq<Ref>, state: string, issues: int -> Answer): seq<Summary> {
    if refs == [] then []
    else Shown(refs[|refs| - 1], state, issues) + Wanted(refs[..|refs| - 1], state, issues)
  }

  lemma {:induction false} WantedSplit(a: seq<Ref>, b: seq<Ref>, state: string, issues: int -> Answer)
    ensures Wanted(a + b, state, issues) == Wanted(b, state, issues) + Wanted(a, state, issues)
    decreases |b|
  {
    if b == [] {
      assert a + b == a;
    } else {
      var front, last := b[..|b| - 1], Shown(b[|b| - 1], state, issues);
      WantedSplit(a, front, state, issues);
      assert (a + b)[..|a + b| - 1] == a + front && (a + b)[|a + b| - 1] == b[|b| - 1];
      Associate(last, Wanted(front, state, issues), Wanted(a, state, issues));
    }
  }

  lemma Associate(a: seq<Summary>, b: seq<Summary>, c: seq<Summary>)
    ensures a + (b + c) == (a + b) + c
  {
  }

  /** One more ref below a stretch, and one more above it. */
  lemma WantedBelow(refs: seq<Ref>, i: nat, hi: nat, state: string, issues: int -> Answer)
    requires i < hi <= |refs|
    ensures Wanted(refs[i..hi], state, issues) == Wanted(refs[i + 1..hi], state, issues) + Shown(refs[i], state, issues)
  {
    WantedSplit([refs[i]], refs[i + 1..hi], state, issues);
    assert refs[i..hi] == [refs[i]] + refs[i + 1..hi];
    assert Wanted([refs[i]], state, issues) == Shown(refs[i], state, issues);
  }

  lemma WantedPages(refs: seq<Ref>, lo: nat, hi: nat, state: string, issues: int -> Answer)
    requires lo <= hi <= |refs|
    ensures Wanted(refs[..hi], state, issues) == Wanted(refs[lo..hi], state, issues) + Wanted(refs[..lo], state, issues)
    ensures lo == 0 ==> refs[..hi] == refs[lo..hi]
  {
    WantedSplit(refs[..lo], refs[lo..hi], state, issues);
    assert refs[..hi] == refs[..lo] + refs[lo..hi];
  }

  lemma WantedAbove(refs: seq<Ref>, lo: nat, i: nat, state: string, issues: int -> Answer)
    requires lo < i <= |refs|
    ensures Wanted(refs[lo..i], state, issues) == Shown(refs[i - 1], state, issues) + Wanted(refs[lo..i - 1], state, issues)
  {
    assert refs[lo..i][..i - lo - 1] == refs[lo..i - 1] && refs[lo..i][i - lo - 1] == refs[i - 1];
  }

  /******* One call *******/

  /** How many refs lie below the cursor; a cursor of zero is no cursor. */
  function Below(refs: seq<Ref>, before: int): (n: nat)
    ensures n <= |refs|
    ensures before <= 0 ==> n == |refs|
    ensures 0 < n && before > 0 ==> refs[n - 1].number < before
    ensures before > 0 ==> forall i | n <= i < |refs| :: refs[i].number >= before
  {
    if refs != [] && before > 0 && refs[|refs| - 1].number >= before then Below(refs[..|refs| - 1], before)
    else |refs|
  }

  /** Where a call stops that examines the refs below index i downwards. */
  function PageLow(refs: seq<Ref>, i: nat, scanned: nat, found: nat, limit: nat, state: string, issues: int -> Answer): (lo: nat)
    requires i <= |refs|
    ensures lo <= i
    decreases i
  {
    if i == 0 || scanned >= MAXIMUM_SCAN || found >= limit then i
    else PageLow(refs, i - 1, scanned + 1, found + |Shown(refs[i - 1], state, issues)|, limit, state, issues)
  }

  lemma PageLowStep(refs: seq<Ref>, i: nat, scanned: nat, found: nat, limit: nat, state: string, issues: int -> Answer)
    requires 0 < i <= |refs| && scanned < MAXIMUM_SCAN && found < limit
    ensures PageLow(refs, i, scanned, found, limit, state, issues)
      == PageLow(refs, i - 1, scanned + 1, found + |Shown(refs[i - 1], state, issues)|, limit, state, issues)
  {
  }

  function ClampLimit(limit: int): (r: nat)
    ensures 1 <= r <= MAXIMUM_PULL_LIMIT
  {
    if limit <= 0 then DEFAULT_PULL_LIMIT else if limit <= MAXIMUM_PULL_LIMIT then limit else MAXIMUM_PULL_LIMIT
  }

  /** How far a call has come: it has examined the refs from hi down to index. */
  datatype Scan = Scan(lo: nat, hi: nat, index: nat, scanned: nat)

  ghost predicate Scanned(refs: seq<Ref>, state: string, limit: nat, issues: int -> Answer, s: Scan, summaries: seq<Summary>) {
    match s
    case Scan(lo, hi, index, scanned) =>
      && lo <= index <= hi <= |refs|
      && scanned == hi - index
      && summaries == Wanted(refs[index..hi], state, issues)
      && lo == PageLow(refs, index, scanned, |summaries|, limit, state, issues)
      && !AnyFailed(refs, issues, index, hi)
  }

  predicate AnyFailed(refs: seq<Ref>, issues: int -> Answer, lo: nat, hi: nat)
    requires hi <= |refs|
  {
    exists i :: lo <= i < hi && issues(refs[i].number).Failed?
  }

  lemma ScanOne(refs: seq<Ref>, state: string, limit: nat, issues: int -> Answer, lo: nat, hi: nat,
                index: nat, summaries: seq<Summary>, scanned: nat)
    requires Scanned(refs, state, limit, issues, Scan(lo, hi, index + 1, scanned), summaries)
    requires scanned < MAXIMUM_SCAN && |summaries| < limit
    ensures index < hi <= |refs| && lo <= index
    ensures issues(refs[index].number).Failed? ==> AnyFailed(refs, issues, lo, hi)
    ensures !issues(refs[index].number).Failed? ==>
      Scanned(refs, state, limit, issues, Scan(lo, hi, index, scanned + 1), summaries + Shown(refs[index], state, issues))
  {
    WantedBelow(refs, index, hi, state, issues);
    PageLowStep(refs, index + 1, scanned, |summaries|, limit, state, issues);
    assert |summaries + Shown(refs[index], state, issues)| == |summaries| + |Shown(refs[index], state, issues)|;
    if !issues(refs[index].number).Failed? {
      FailedBelow(refs, issues, index, hi);
    }
  }

  lemma FailedBelow(refs: seq<Ref>, issues: int -> Answer, index: nat, hi: nat)
    requires index < hi <= |refs| && !issues(refs[index].number).Failed?
    ensures AnyFailed(refs, issues, index, hi) <==> AnyFailed(refs, issues, index + 1, hi)
  {
  }

  /** What a call replies: the refs from hi down to lo, and the cursor that leads on. */
  ghost function Reply(refs: seq<Ref>, state: string, limit: nat, before: int, issues: int -> Answer): Result<Page, ListError> {
    var hi := Below(refs, before);
    var lo := PageLow(refs, hi, 0, 0, limit, state, issues);
    if AnyFailed(refs, issues, lo, hi) then Err(RequestFailed)
    else Ok(Page(Wanted(refs[lo..hi], state, issues), |refs|, if 0 < lo < |refs| then refs[lo].number else 0))
  }

  lemma ScanStops(refs: seq<Ref>, state: string, limit: nat, before: int, issues: int -> Answer, lo: nat, hi: nat,
                  index: nat, summaries: seq<Summary>, scanned: nat)
    requires Scanned(refs, state, limit, issues, Scan(lo, hi, index, scanned), summaries)
    requires hi == Below(refs, before) && lo == PageLow(refs, hi, 0, 0, limit, state, issues)
    requires index == 0 || scanned >= MAXIMUM_SCAN || |summaries| >= limit
    requires index < |refs| || index == 0
    ensures Reply(refs, state, limit, before, issues) == Ok(Page(summaries, |refs|, if index > 0 then refs[index].number else 0))
  {
  }

  /** The test of the loop passes over exactly the refs that are not below the cursor. */
  lemma PassedOver(refs: seq<Ref>, before: int, index: nat)
    requires Ascending(refs) && index < |refs|
    ensures before > 0 && refs[index].number >= before <==> index >= Below(refs, before)
  {
    var n := Below(refs, before);
    assert 0 < n <= |refs| && before > 0 ==> refs[n - 1].number < before;
  }

  lemma ScanStarts(refs: seq<Ref>, state: string, limit: nat, before: int, issues: int -> Answer)
    requires limit >= 1
    ensures var hi := Below(refs, before);
      Scanned(refs, state, limit, issues, Scan(PageLow(refs, hi, 0, 0, limit, state, issues), hi, hi, 0), [])
  {
    var hi := Below(refs, before);
    assert refs[hi..hi] == [];
  }

  /** scanPullRefs, for a positive limit. */
  method ScanPullRefs(refs: seq<Ref>, state: string, limit: nat, before: int, issues: int -> Answer)
    returns (r: Result<Page, ListError>)
    requires Ascending(refs) && limit >= 1
    ensures r == Reply(refs, state, limit, before, issues)
  {
    var summaries: seq<Summary> := [];
    var scanned: nat := 0;
    var next := 0;
    ghost var hi := Below(refs, before);
    ghost var lo := PageLow(refs, hi, 0, 0, limit, state, issues);
    ScanStarts(refs, state, limit, before, issues);
    LowIsLower(refs, hi, limit, state, issues);
    var index := |refs|;
    ghost var seen := hi;
    while index > 0
      invariant 0 <= index <= |refs| && seen <= hi <= |refs| && seen == if index < hi then index else hi
      invariant Scanned(refs, state, limit, issues, Scan(lo, hi, seen, scanned), summaries)
      invariant seen < hi ==> next == refs[seen].number
      decreases index
    {
      index := index - 1;
      var ref := refs[index];
      PassedOver(refs, before, index);
      if before > 0 && ref.number >= before {
        continue;
      }
      if scanned >= MAXIMUM_SCAN || |summaries| >= limit {
        ScanStops(refs, state, limit, before, issues, lo, hi, seen, summaries, scanned);
        return Ok(Page(summaries, |refs|, next));
      }
      ScanOne(refs, state, limit, issues, lo, hi, index, summaries, scanned);
      scanned := scanned + 1;
      next := ref.number;
      var answer := issues(ref.number);
      if answer.Failed? {
        return Err(RequestFailed);
      }
      seen := index;
      summaries := AddShown(summaries, ref, answer, state, issues);
      assert Scanned(refs, state, limit, issues, Scan(lo, hi, seen, scanned), summaries);
    }
    ScanStops(refs, state, limit, before, issues, lo, hi, seen, summaries, scanned);
    return Ok(Page(summaries, |refs|, 0));
  }

  /** Adds the summary of a readable pull request in the state. */
  method AddShown(summaries: seq<Summary>, ref: Ref, answer: Answer, state: string, ghost issues: int -> Answer)
    returns (r: seq<Summary>)
    requires answer == issues(ref.number)
    ensures r == summaries + Shown(ref, state, issues)
  {
    if answer.Hidden? || answer.Failed? {
      return summaries;
    }
    if state != "all" && answer.issue.state != state {
      return summaries;
    }
    return summaries + [Summary(answer.issue.number, answer.issue.title, answer.issue.state, ref.headSha)];
  }

  lemma LowIsLower(refs: seq<Ref>, hi: nat, limit: nat, state: string, issues: int -> Answer)
    requires hi <= |refs| && limit >= 1
    ensures hi > 0 ==> PageLow(refs, hi, 0, 0, limit, state, issues) < hi
  {
  }

  /** ListPullRequests without its network calls. */
  method ListPullRequests(refs: seq<Ref>, state: string, limit: int, before: int, issues: int -> Answer)
    returns (r: Result<Page, ListError>)
    requires Ascending(refs)
    ensures r == Err(InvalidArgument) <==> state !in {"open", "closed", "all"} || before < 0
    ensures state in {"open", "closed", "all"} && before >= 0 ==> r == Reply(refs, state, ClampLimit(limit), before, issues)
    ensures r.Ok? ==> |r.value.summaries| <= ClampLimit(limit)
    ensures r.Ok? && r.value.next != 0 ==> r.value.next > 0 && (before > 0 ==> r.value.next < before)
  {
    if state !in {"open", "closed", "all"} {
      return Err(InvalidArgument);
    }
    if before < 0 {
      return Err(InvalidArgument);
    }
    r := ScanPullRefs(refs, state, ClampLimit(limit), before, issues);
    var hi := Below(refs, before);
    PageBounds(refs, hi, 0, 0, ClampLimit(limit), state, issues, PageLow(refs, hi, 0, 0, ClampLimit(limit), state, issues));
    LowIsLower(refs, hi, ClampLimit(limit), state, issues);
  }

  /** A call examines at most a hundred refs and shows at most `limit`; it
      stops early only when it has reached one of the two. */
  lemma {:induction false} PageBounds(refs: seq<Ref>, i: nat, scanned: nat, found: nat, limit: nat,
      state: string, issues: int -> Answer, lo: nat)
    requires i <= |refs| && scanned <= MAXIMUM_SCAN && found <= limit
    requires lo == PageLow(refs, i, scanned, found, limit, state, issues)
    ensures scanned + (i - lo) <= MAXIMUM_SCAN
    ensures found + |Wanted(refs[lo..i], state, issues)| <= limit
    ensures lo > 0 ==> scanned + (i - lo) == MAXIMUM_SCAN || found + |Wanted(refs[lo..i], state, issues)| == limit
    decreases i
  {
    if i == 0 || scanned >= MAXIMUM_SCAN || found >= limit {
      assert refs[lo..i] == [];
    } else {
      var shown := Shown(refs[i - 1], state, issues);
      PageLowStep(refs, i, scanned, found, limit, state, issues);
      PageBounds(refs, i - 1, scanned + 1, found + |shown|, limit, state, issues, lo);
      WantedAbove(refs, lo, i, state, issues);
    }
  }

  /******* The whole listing *******/

  /** The cursor of a stop at index lo leads back to index lo. */
  lemma BelowCursor(refs: seq<Ref>, lo: nat)
    requires Ascending(refs) && lo < |refs|
    ensures Below(refs, refs[lo].number) == lo
  {
    var n := Below(refs, refs[lo].number);
    assert n < |refs| ==> refs[n].number >= refs[lo].number;
    assert n > 0 ==> refs[n - 1].number < refs[lo].number;
  }

  /** A page that has a cursor leads to strictly older refs, and to all of them. */
  lemma NextLeadsOn(refs: seq<Ref>, state: string, limit: nat, before: int, issues: int -> Answer, hi: nat, lo: nat)
    requires Ascending(refs) && limit >= 1 && hi == Below(refs, before)
    requires lo == PageLow(refs, hi, 0, 0, limit, state, issues)
    ensures hi > 0 ==> lo < hi
    ensures lo > 0 ==> refs[lo].number > 0 && Below(refs, refs[lo].number) == lo
  {
    LowIsLower(refs, hi, limit, state, issues);
    if lo > 0 {
      BelowCursor(refs, lo);
    }
  }

  /** A client that follows `next` until it is zero, or until a call fails. */
  ghost function FollowNext(refs: seq<Ref>, state: string, limit: nat, before: int, issues: int -> Answer): Result<seq<Summary>, ListError>
    requires Ascending(refs) && limit >= 1 && before >= 0
    decreases Below(refs, before)
  {
    match Reply(refs, state, limit, before, issues)
    case Err(error) => Err(error)
    case Ok(page) =>
      if page.next == 0 then Ok(page.summaries)
      else
        var hi := Below(refs, before);
        NextLeadsOn(refs, state, limit, before, issues, hi, PageLow(refs, hi, 0, 0, limit, state, issues));
        match FollowNext(refs, state, limit, page.next, issues)
        case Err(error) => Err(error)
        case Ok(rest) => Ok(page.summaries + rest)
  }

  lemma FailedPages(refs: seq<Ref>, issues: int -> Answer, lo: nat, hi: nat)
    requires lo <= hi <= |refs|
    ensures AnyFailed(refs, issues, 0, hi) <==> AnyFailed(refs, issues, lo, hi) || AnyFailed(refs, issues, 0, lo)
  {
  }

  /** What the client ends with, when the refs below index hi are still to come. */
  ghost function Listing(refs: seq<Ref>, state: string, issues: int -> Answer, hi: nat): Result<seq<Summary>, ListError>
    requires hi <= |refs|
  {
    if AnyFailed(refs, issues, 0, hi) then Err(RequestFailed) else Ok(Wanted(refs[..hi], state, issues))
  }

  lemma {:induction false} FollowedIs(refs: seq<Ref>, state: string, limit: nat, before: int, issues: int -> Answer, hi: nat)
    requires Ascending(refs) && limit >= 1 && before >= 0 && hi == Below(refs, before)
    ensures FollowNext(refs, state, limit, before, issues) == Listing(refs, state, issues, hi)
    decreases hi
  {
    var lo := PageLow(refs, hi, 0, 0, limit, state, issues);
    NextLeadsOn(refs, state, limit, before, issues, hi, lo);
    FailedPages(refs, issues, lo, hi);
    WantedPages(refs, lo, hi, state, issues);
    if !AnyFailed(refs, issues, lo, hi) && lo > 0 {
      FollowedIs(refs, state, limit, refs[lo].number, issues, lo);
    }
  }

  /** Following the cursor shows every readable pull request in the state exactly
      once, newest first, however many pages come out empty; and it fails if and
      only if the request for one of the refs does. */
  lemma CursorIsComplete(refs: seq<Ref>, state: string, limit: nat, issues: int -> Answer)
    requires Ascending(refs) && limit >= 1
    ensures var failed := exists i :: 0 <= i < |refs| && issues(refs[i].number).Failed?;
      FollowNext(refs, state, limit, 0, issues) == if failed then Err(RequestFailed) else Ok(Wanted(refs, state, issues))
  {
    FollowedIs(refs, state, limit, 0, issues, |refs|);
    assert refs[..|refs|] == refs;
    assert AnyFailed(refs, issues, 0, |refs|) <==> exists i :: 0 <= i < |refs| && issues(refs[i].number).Failed?;
  }
}
