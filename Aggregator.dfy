/** `loadData`: the four search queries for one account (assigned open issues,
    open pull requests, merged pull requests, pull requests merged on a given
    day), fetched page by page and assembled, with the daily score, into one
    bundle; any failed fetch fails the whole load. */
module Aggregator {
  import opened Wrappers
  import opened Scoring
  import opened Pagination

  const ApiBase := "https://api.github.com/"

  /** The start of the assigned-issues search, up to the account. */
  const AssigneeKey := "search/issues?q=is:issue+assignee:"
  /** The start of the three pull-request searches, up to the account. */
  const AuthorKey := "search/issues?q=is:pull-request+author:"

  /** Open issues assigned to the account, newest first. */
  function AssignedIssuesQuery(username: string): (query: string)
    ensures |AssigneeKey| + |username| < |query|
    ensures query[..|AssigneeKey|] == AssigneeKey
    ensures query[|AssigneeKey|..|AssigneeKey| + |username|] == username
  {
    AssigneeKey + username + "+state:open&sort=created&order=desc"
  }

  /** Open pull requests authored by the account, newest first. */
  function OpenPRsQuery(username: string): (query: string)
    ensures |AuthorKey| + |username| < |query|
    ensures query[..|AuthorKey|] == AuthorKey
    ensures query[|AuthorKey|..|AuthorKey| + |username|] == username
  {
    AuthorKey + username + "+state:open&sort=created&order=desc"
  }

  /** Merged pull requests authored by the account, newest first. */
  function MergedPRsQuery(username: string): (query: string)
    ensures |AuthorKey| + |username| < |query|
    ensures query[..|AuthorKey|] == AuthorKey
    ensures query[|AuthorKey|..|AuthorKey| + |username|] == username
  {
    AuthorKey + username + "+state:closed+is:merged&sort=created&order=desc"
  }

  /** Pull requests authored by the account and merged on `today`, the ISO
      calendar date `YYYY-MM-DD` taken once per load; the day follows the
      account and a fixed filter. */
  function TodayMergedPRsQuery(username: string, today: string): (query: string)
    ensures |AuthorKey| + |username| + |"+state:closed+is:merged+merged:"| + |today| < |query|
    ensures query[..|AuthorKey|] == AuthorKey
    ensures query[|AuthorKey|..|AuthorKey| + |username|] == username
    ensures var day := |AuthorKey| + |username| + |"+state:closed+is:merged+merged:"|;
      query[day..day + |today|] == today
  {
    AuthorKey + username + "+state:closed+is:merged+merged:" + today + "&sort=created&order=desc"
  }

  /** The URLs of the four searches, in the order `loadData` lists them:
      assigned issues, open, merged, merged today. */
  function SearchUrls(username: string, today: string): (urls: seq<string>)
    ensures |urls| == 4
    ensures urls[0] == ApiBase + AssignedIssuesQuery(username)
    ensures urls[1] == ApiBase + OpenPRsQuery(username)
    ensures urls[2] == ApiBase + MergedPRsQuery(username)
    ensures urls[3] == ApiBase + TodayMergedPRsQuery(username, today)
  {
    [ApiBase + AssignedIssuesQuery(username),
     ApiBase + OpenPRsQuery(username),
     ApiBase + MergedPRsQuery(username),
     ApiBase + TodayMergedPRsQuery(username, today)]
  }

  /** A text between a fixed prefix and a fixed suffix is determined by the whole. */
  lemma {:induction false} Infix(prefix: string, x: string, y: string, suffix: string)
    requires prefix + x + suffix == prefix + y + suffix
    ensures x == y
  {
    var s := prefix + x + suffix;
    assert |x| == |y|;
    assert x == s[|prefix|..|prefix| + |x|];
  }

  /** The assigned-issues search names the account it was built for. */
  lemma AssignedIssuesUrlNamesAccount(u1: string, u2: string)
    requires ApiBase + AssignedIssuesQuery(u1) == ApiBase + AssignedIssuesQuery(u2)
    ensures u1 == u2
  {
    var q1, q2 := AssignedIssuesQuery(u1), AssignedIssuesQuery(u2);
    assert ApiBase + q1 + "" == ApiBase + q2 + "";
    Infix(ApiBase, q1, q2, "");
    var s := "+state:open&sort=created&order=desc";
    assert q1 == AssigneeKey + u1 + s;
    assert q2 == AssigneeKey + u2 + s;
    Infix(AssigneeKey, u1, u2, s);
  }

  /** The merged-today search of one account names the day it was built for. */
  lemma TodayMergedUrlNamesDay(u: string, today1: string, today2: string)
    requires ApiBase + TodayMergedPRsQuery(u, today1) == ApiBase + TodayMergedPRsQuery(u, today2)
    ensures today1 == today2
  {
    var q1, q2 := TodayMergedPRsQuery(u, today1), TodayMergedPRsQuery(u, today2);
    assert ApiBase + q1 + "" == ApiBase + q2 + "";
    Infix(ApiBase, q1, q2, "");
    var p := AuthorKey + u + "+state:closed+is:merged+merged:";
    var s := "&sort=created&order=desc";
    assert q1 == p + today1 + s;
    assert q2 == p + today2 + s;
    Infix(p, today1, today2, s);
  }

  /** The search URLs identify the account and the day they were built for. */
  lemma SearchUrlsIdentifyAccount(u1: string, u2: string, today1: string, today2: string)
    requires SearchUrls(u1, today1) == SearchUrls(u2, today2)
    ensures u1 == u2 && today1 == today2
  {
    AssignedIssuesUrlNamesAccount(u1, u2);
    TodayMergedUrlNamesDay(u1, today1, today2);
  }

  /** The search API: for each URL, the reply to each page request. */
  type Search = string -> Server<Item>

  /** The result of `loadData` for one account. */
  datatype Bundle = Bundle(
    assignedIssues: seq<Item>,
    openPRs: seq<Item>,
    mergedPRs: seq<Item>,
    todayMergedPRs: seq<Item>,
    allTimeMergedPRs: seq<Item>,
    todayScore: nat)

  /** Every one of the four searches stops within `bound` pages. */
  ghost predicate SearchesStop(search: Search, username: string, today: string, bound: nat) {
    var urls := SearchUrls(username, today);
    forall i :: 0 <= i < 4 ==> StopsWithin(search(urls[i]), 1, bound)
  }

  /** What fetching the `i`th of the four searches gives. */
  ghost function SearchResult(search: Search, username: string, today: string, bound: nat, i: nat): Result<seq<Item>, int>
    requires SearchesStop(search, username, today, bound) && i < 4
  {
    FetchFrom(search(SearchUrls(username, today)[i]), 1, bound)
  }

  /** All four searches succeed. */
  ghost predicate LoadSucceeds(search: Search, username: string, today: string, bound: nat)
    requires SearchesStop(search, username, today, bound)
  {
    forall i :: 0 <= i < 4 ==> SearchResult(search, username, today, bound, i).Ok?
  }

  /** `loadData`. The four fetches run one after another in the listed order
      and the first failure ends the load; the contract names only some failed
      search's status, which is what `Promise.all` promises about its first
      rejection. On success the bundle holds the four results, the merged pull
      requests a second time as the all-time list, and the score of the pull
      requests merged today. */
  method LoadData(search: Search, username: string, today: string, ghost bound: nat) returns (r: Result<Bundle, int>)
    requires SearchesStop(search, username, today, bound)
    ensures r.Ok? <==> LoadSucceeds(search, username, today, bound)
    ensures r.Ok? ==>
      r.value.assignedIssues == SearchResult(search, username, today, bound, 0).value &&
      r.value.openPRs == SearchResult(search, username, today, bound, 1).value &&
      r.value.mergedPRs == SearchResult(search, username, today, bound, 2).value &&
      r.value.todayMergedPRs == SearchResult(search, username, today, bound, 3).value &&
      r.value.allTimeMergedPRs == r.value.mergedPRs &&
      r.value.todayScore == Score(r.value.todayMergedPRs)
    ensures r.Err? ==> exists i :: 0 <= i < 4 && SearchResult(search, username, today, bound, i) == Err(r.error)
  {
    var urls := SearchUrls(username, today);
    var results: seq<seq<Item>> := [];
    for i := 0 to 4
      invariant |results| == i
      invariant forall j :: 0 <= j < i ==> SearchResult(search, username, today, bound, j) == Ok(results[j])
    {
      var fetched, _ := FetchPaginatedData(search(urls[i]), bound);
      assert fetched == SearchResult(search, username, today, bound, i);
      if fetched.Err? {
        assert !SearchResult(search, username, today, bound, i).Ok?;
        return Err(fetched.error);
      }
      results := results + [fetched.value];
    }
    var todayScore := CalculateDailyScores(results[3]);
    r := Ok(Bundle(results[0], results[1], results[2], results[3], results[2], todayScore));
  }
}
