/** What a recognised command does once it starts fetching: `!github` reports
    the figures of one account, `!gssoc` the counts of its GSSoC-labelled issues
    and pull requests, and `!compare` the figures of two accounts side by side.
    Any failed request turns the whole report into a fixed error message. The
    user-profile endpoint is an oracle from URL to reply, like the search API. */
module Commands {
  import opened Wrappers
  import opened Scoring
  import opened Filters
  import opened Aggregator

  const GithubErrorMessage := "An error occurred while fetching data. Please try again later."
  const GssocErrorMessage := "An error occurred while fetching GSSoC data. Please try again later."
  const CompareErrorMessage := "An error occurred while fetching comparison data. Please ensure both usernames are correct."

  /** The users endpoint of the API. */
  const UsersEndpoint := ApiBase + "users/"

  /** The URL `fetchUserProfile` requests: the users endpoint followed by the
      account, so that the account can be read back off the URL. */
  function ProfileUrl(username: string): (url: string)
    ensures |url| == |UsersEndpoint| + |username|
    ensures url[..|UsersEndpoint|] == UsersEndpoint && url[|UsersEndpoint|..] == username
  {
    UsersEndpoint + username
  }

  /** Two accounts never share a profile URL, so `!compare` asks for each
      account's own profile. */
  lemma ProfileUrlsDiffer(username1: string, username2: string)
    requires username1 != username2
    ensures ProfileUrl(username1) != ProfileUrl(username2)
  {
    assert ProfileUrl(username1)[|UsersEndpoint|..] == username1;
  }

  /** The part of a user profile the bot uses. */
  datatype Profile = Profile(avatarUrl: string)

  /** The user-profile endpoint: a profile, or the non-OK status of the reply. */
  type ProfileApi = string -> Result<Profile, int>

  /** The six figures of a score report, in the order `buildScoreEmbed` shows
      them; `!compare` shows the same six for each account. */
  datatype Stats = Stats(
    openPRs: nat,
    mergedToday: nat,
    totalMerged: nat,
    dailyScore: nat,
    allTimeScore: nat,
    assignedIssues: nat)

  /** What the bot sends back for a command. */
  datatype Message =
    | TextReply(text: string)
    | ScoreEmbed(username: string, avatarUrl: string, stats: Stats)
    | GssocEmbed(username: string, counts: GssocCounts)
    | CompareEmbed(username1: string, username2: string, stats1: Stats, stats2: Stats)

  /** The figures of a loaded bundle: list lengths, the daily score that came
      with the bundle, and `calculateTotalScore` of the all-time list. */
  function BundleStats(data: Bundle): (stats: Stats)
    ensures stats.allTimeScore == Score(data.allTimeMergedPRs)
  {
    Stats(|data.openPRs|, |data.todayMergedPRs|, |data.mergedPRs|, data.todayScore,
          CalculateTotalScore(data.allTimeMergedPRs), |data.assignedIssues|)
  }

  /** Reference definition of the figures of an account, straight from what its
      four searches return: the number of open pull requests, of pull requests
      merged today and of all merged pull requests, the score of those merged
      today, the score of all merged ones, and the number of assigned open
      issues. */
  ghost function ExpectedStats(search: Search, username: string, today: string, bound: nat): Stats
    requires SearchesStop(search, username, today, bound) && LoadSucceeds(search, username, today, bound)
  {
    var assignedIssues := SearchResult(search, username, today, bound, 0).value;
    var openPRs := SearchResult(search, username, today, bound, 1).value;
    var mergedPRs := SearchResult(search, username, today, bound, 2).value;
    var todayMergedPRs := SearchResult(search, username, today, bound, 3).value;
    Stats(|openPRs|, |todayMergedPRs|, |mergedPRs|, Score(todayMergedPRs), Score(mergedPRs), |assignedIssues|)
  }

  /** `!github <account>` after the username check: fetch the profile, then
      load the four searches, then report. Besides the message it returns the
      pull requests merged today, which the reaction handler filters by tier;
      after a failure there are none. */
  method RunGithubReport(username: string, profiles: ProfileApi, search: Search, today: string, ghost bound: nat)
    returns (message: Message, todayMergedPRs: seq<Item>)
    requires SearchesStop(search, username, today, bound)
    ensures message.ScoreEmbed? <==>
      profiles(ProfileUrl(username)).Ok? && LoadSucceeds(search, username, today, bound)
    ensures message.ScoreEmbed? ==>
      message == ScoreEmbed(username, profiles(ProfileUrl(username)).value.avatarUrl,
                            ExpectedStats(search, username, today, bound)) &&
      todayMergedPRs == SearchResult(search, username, today, bound, 3).value
    ensures !message.ScoreEmbed? ==> message == TextReply(GithubErrorMessage) && todayMergedPRs == []
  {
    var profile := profiles(ProfileUrl(username));
    if profile.Err? {
      return TextReply(GithubErrorMessage), [];
    }
    var data := LoadData(search, username, today, bound);
    if data.Err? {
      return TextReply(GithubErrorMessage), [];
    }
    message := ScoreEmbed(username, profile.value.avatarUrl, BundleStats(data.value));
    todayMergedPRs := data.value.todayMergedPRs;
  }

  /** `!gssoc [account]` after the username is known: load the four searches
      and count the GSSoC-labelled assigned issues, open and merged pull
      requests, and the merged ones of each tier. */
  method RunGssocReport(username: string, search: Search, today: string, ghost bound: nat) returns (message: Message)
    requires SearchesStop(search, username, today, bound)
    ensures message.GssocEmbed? <==> LoadSucceeds(search, username, today, bound)
    ensures message.GssocEmbed? ==>
      message == GssocEmbed(username, CountGssoc(SearchResult(search, username, today, bound, 0).value,
                                                 SearchResult(search, username, today, bound, 1).value,
                                                 SearchResult(search, username, today, bound, 2).value))
    ensures !message.GssocEmbed? ==> message == TextReply(GssocErrorMessage)
  {
    var data := LoadData(search, username, today, bound);
    if data.Err? {
      return TextReply(GssocErrorMessage);
    }
    var counts := CountGssoc(data.value.assignedIssues, data.value.openPRs, data.value.mergedPRs);
    message := GssocEmbed(username, counts);
  }

  /** `!compare <account> vs <account>` after the parse: both profiles and both
      loads must succeed, and then each column holds the same figures a
      `!github` report of that account would. */
  method RunCompare(username1: string, username2: string, profiles: ProfileApi, search: Search, today: string, ghost bound: nat)
    returns (message: Message)
    requires SearchesStop(search, username1, today, bound)
    requires SearchesStop(search, username2, today, bound)
    ensures message.CompareEmbed? <==>
      profiles(ProfileUrl(username1)).Ok? && LoadSucceeds(search, username1, today, bound) &&
      profiles(ProfileUrl(username2)).Ok? && LoadSucceeds(search, username2, today, bound)
    ensures message.CompareEmbed? ==>
      message == CompareEmbed(username1, username2,
                              ExpectedStats(search, username1, today, bound),
                              ExpectedStats(search, username2, today, bound))
    ensures !message.CompareEmbed? ==> message == TextReply(CompareErrorMessage)
  {
    var profile1 := profiles(ProfileUrl(username1));
    if profile1.Err? {
      return TextReply(CompareErrorMessage);
    }
    var data1 := LoadData(search, username1, today, bound);
    if data1.Err? {
      return TextReply(CompareErrorMessage);
    }
    var profile2 := profiles(ProfileUrl(username2));
    if profile2.Err? {
      return TextReply(CompareErrorMessage);
    }
    var data2 := LoadData(search, username2, today, bound);
    if data2.Err? {
      return TextReply(CompareErrorMessage);
    }
    message := CompareEmbed(username1, username2, BundleStats(data1.value), BundleStats(data2.value));
  }
}
