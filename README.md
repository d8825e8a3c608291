# A verified model of the GitHub-stats Discord bot

The bot answers three chat commands with figures it gets from the GitHub search
API:

- `!github <account>` reports an account's open and merged pull requests, its
  assigned issues, a daily score and an all-time score. Reactions `1️⃣`, `2️⃣`
  and `3️⃣` on that report list today's merged pull requests of one tier.
- `!gssoc [account]` counts the account's issues and pull requests labelled
  `gssoc-ext`, and the merged ones per tier. Without an account it uses the last
  account a `!github` command named.
- `!compare <account> vs <account>` shows the figures of two accounts side by
  side.

This project models the logic between the chat events and the HTTP calls, as
Dafny modules:

- `Text`: the JavaScript string operations the bot relies on: ASCII
  `toLowerCase`, `startsWith`, `split` and `join` on one character, `trim`, and
  the whitespace tokens that `\S+`/`\s+` see.
- `Scoring`: the label-point table (`level1` 10, `level2` 25, `level3` 45, any
  other label 0) and the two score functions.
  - `calculateDailyScores` is an imperative accumulation, as the source's
    `score +=` inside `forEach` is.
  - `calculateTotalScore` is the source's `reduce` written as a fold.
  - Both are proved equal to one reference sum, `Score`. That sum is proved
    additive over concatenation and independent of item order.
- `Pagination`: the `while (hasNextPage)` loop of `fetchPaginatedData`.
  - The HTTP endpoint is an oracle from page number to reply: a non-OK status
    or a page of items.
  - The loop is proved equal to a recursive reference definition, and that
    definition to a closed form: the in-order concatenation of pages 1 to k,
    where k is the first page that is not full, or the status of page k if that
    page failed.
  - The loop also returns the page numbers it requested, which are exactly
    1 to k.
  - Termination rests on a ghost bound within which some page ends the fetch.
- `Filters`: the label filters, the `gssoc-ext` tier counts, the reaction emoji,
  and the description of a tier list.
- `Aggregator`: `loadData`. It builds the four search URLs from the account and
  the day, fetches them, fails when any fetch fails, and scores today's merged
  pull requests.
- `Dispatcher`: the `messageCreate` handler, as a class whose one field is
  `lastQueriedUsername`. Its method maps (author is a bot, message text) to an
  action: ignore, a fixed reply, or one of the three reports.
- `Commands`: what each report then fetches and shows. The user-profile
  endpoint is an oracle from URL to reply.

The `!compare` regex `/(\S+)\s+vs\s+(\S+)/i` is modelled on tokens, the maximal
runs of non-whitespace characters:

- Both `\s+` need whitespace on either side of `vs`.
- The leftmost match begins where the token before `vs` begins.
- So the regex matches exactly when some token with a token on each side is `vs`
  in any letter case. It captures the tokens around the first such `vs`.
- `trim()` is proved not to change the tokens.

## Model

| member | source | states |
|---|---|---|
| Text.ToLower | bot.js:253 | every character is lowered in place and the length is kept |
| Text.ToLowerIdempotent | bot.js:253 | lower-casing a lower-cased name changes nothing, so a lower-cased label is its own table key |
| Text.StartsWith | bot.js:22 | a message that starts with a command word is that word followed by the rest of the message |
| Text.Split | bot.js:23 | `split(' ')` always gives at least one field, and no field contains the separator |
| Text.SplitCountsSeparators | bot.js:23 | there is exactly one more field than there are separators |
| Text.Join | bot.js:301 | a join of a non-empty list starts with its first part |
| Text.JoinSplit | bot.js:23 | joining the fields with the separator gives back the original text, so no character is lost |
| Text.SplitJoin | bot.js:301 | splitting a join of separator-free parts gives back exactly those parts |
| Text.TrimStart | bot.js:132 | the result is a suffix that does not start with whitespace, and everything removed is whitespace |
| Text.TrimEnd | bot.js:132 | the result is a prefix that does not end with whitespace, and everything removed is whitespace |
| Text.Trim | bot.js:132 | the result neither starts nor ends with whitespace, and it is a stretch of the text with only whitespace cut off before and after it |
| Text.Tokens | bot.js:135 | every token is non-empty, and a text that does not start with whitespace has a first token starting with its first character |
| Text.TokensHaveNoSpace | bot.js:135 | no token contains whitespace |
| Text.TokensKeepNonSpace | bot.js:135 | the tokens, put back together, are the non-whitespace characters of the text in order |
| Text.TokensIgnoreTrim | bot.js:132-135 | trimming before matching does not change the tokens the regex sees |
| Text.TokensOfJoinedWords | bot.js:135 | words joined by single spaces tokenise back into the same words |
| Scoring.Points | bot.js:253-255 | a label is always worth 0, 10, 25 or 45 points |
| Scoring.PointsTable | bot.js:245-256 | a label scores 10, 25 or 45 exactly when its lower-cased name is `level1`, `level2` or `level3`, and 0 exactly when it is none of them |
| Scoring.TierPoints | bot.js:245-249 | the three tier names score 10, 25 and 45 |
| Scoring.MixedCaseTierPoints | bot.js:253-255 | letter case is ignored: `Level2` scores 25 |
| Scoring.LabelsScoreAppend | bot.js:252-257 | label points add up over concatenated label lists |
| Scoring.ScoreAppend | bot.js:251-259 | score(a ++ b) = score(a) + score(b) |
| Scoring.ScorePermutation | bot.js:251-259 | the score does not depend on the order of the pull requests |
| Scoring.CalculateDailyScores | bot.js:244-260 | the accumulated score equals the sum, over pull requests and their labels, of the table points |
| Scoring.LabelFoldSums | bot.js:270-275 | the inner `forEach` adds the points of all labels to the running score |
| Scoring.ScoreFoldSums | bot.js:269-277 | the `reduce` from any start adds the sum of all item scores |
| Scoring.CalculateTotalScore | bot.js:262-278 | the total score equals the same reference sum |
| Scoring.DailyAndTotalAgree | bot.js:244-278 | the two score functions return the same value on every input |
| Scoring.TwoTiersOnOneItem | bot.js:252-257 | a pull request labelled `level1` and `Level2` is worth 35 |
| Scoring.DailyScoreExample | bot.js:244-260 | an empty list scores 0, and one `level1` plus one `level2` pull request score 35 |
| Pagination.FirstStop | bot.js:235-238 | the first page that fails or is not full, with every earlier page full |
| Pagination.FirstStopFromLater | bot.js:230-240 | after passing full pages, the fetch still stops at the same page |
| Pagination.FullPagesLength | bot.js:231-238 | n full pages hold 100 · n items |
| Pagination.FetchFromIsConcatenation | bot.js:225-242 | the fetch returns the status of the first stopping page if it failed, otherwise the in-order concatenation of all pages up to and including it; no partial data comes with an error |
| Pagination.NoResults | bot.js:230-240 | with no results exactly one page is requested and the result is empty |
| Pagination.ExactMultipleOfPageSize | bot.js:230-240 | after n full pages and an empty one, n + 1 pages are requested and the 100 · n items returned |
| Pagination.FailedPageAborts | bot.js:235 | a failed page after full pages aborts with its status, after requesting pages up to it |
| Pagination.FetchPaginatedData | bot.js:225-242 | the loop returns the reference result and requests exactly pages 1, 2, …, k in order, k being the first stopping page |
| Filters.HasLabel | bot.js:56 | an item carries a label exactly when some label of the item has that lower-cased name |
| Filters.FilterByLabel | bot.js:56 | every kept item carries the label; each item carrying it keeps all its occurrences and every other item is dropped |
| Filters.FilterIsSubsequence | bot.js:92-94 | a filter keeps the order of the items it keeps |
| Filters.FilterEmpty | bot.js:56 | a filter is empty exactly when no item carries the label |
| Filters.CountCarrying | bot.js:92-101 | the reference count of items carrying two labels is at most the number of items |
| Filters.FilterCount | bot.js:92-94 | a filter keeps as many items as carry its label |
| Filters.FilterTwiceCount | bot.js:94-101 | filtering by `gssoc-ext` and then by a tier label keeps as many items as carry both labels |
| Filters.CountGssoc | bot.js:92-101 | the merged, assigned and open counts are the numbers of items of each list labelled `gssoc-ext`; each tier count is the number of merged pull requests labelled both `gssoc-ext` and that tier's label; so each tier count is at most the merged `gssoc-ext` count, which is at most the merged count |
| Filters.TiersOverlap | bot.js:97-101 | one merged `gssoc-ext` pull request labelled `level1` and `level2` counts under both tiers, so tier counts can exceed the merged count |
| Filters.TierOfEmoji | bot.js:49 | a tier is selected exactly by its own emoji; other emoji select none |
| Filters.TierOfEmojiRoundTrip | bot.js:43-49 | each tier's emoji selects that tier |
| Filters.PrLines | bot.js:301 | one line per pull request, in list order |
| Filters.LevelDescription | bot.js:301 | the description is `No PRs found.` exactly when the list is empty |
| Filters.LevelDescriptionLines | bot.js:301 | when titles and links hold no newline, the description splits into one line per pull request |
| Filters.FilterKeepsSingleLines | bot.js:56-64 | a filter of a list without newlines in titles and links has none either, since it keeps only items of the list |
| Filters.BuildLevelEmbed | bot.js:297-302 | the title is the tier title, ` - ` and the account; the description is `No PRs found.` exactly when the list is empty, and otherwise has one line per pull request, in list order, when no title or link holds a newline |
| Filters.OnReaction | bot.js:48-67 | only non-bot reactions with a tier emoji are answered; the title names the tier and the reacting user; the list says `No PRs found.` exactly when no pull request merged today has that tier's label, and otherwise, when no title or link holds a newline, its lines are exactly those of today's merged pull requests with that label, in order |
| Aggregator.AssignedIssuesQuery | bot.js:206 | the query starts with the assigned-issues key, immediately followed by the account |
| Aggregator.OpenPRsQuery | bot.js:207 | the query starts with the pull-request author key, immediately followed by the account |
| Aggregator.MergedPRsQuery | bot.js:208 | the query starts with the pull-request author key, immediately followed by the account |
| Aggregator.TodayMergedPRsQuery | bot.js:209 | the query starts with the pull-request author key and the account, and the day follows the fixed merged filter |
| Aggregator.SearchUrls | bot.js:205-214 | four search URLs, in the order of `Object.values(queries)`: assigned issues, open pull requests, merged pull requests, merged today, each behind the API base |
| Aggregator.AssignedIssuesUrlNamesAccount | bot.js:206 | the assigned-issues URL determines the account |
| Aggregator.TodayMergedUrlNamesDay | bot.js:209 | the merged-today URL determines the day |
| Aggregator.SearchUrlsIdentifyAccount | bot.js:205-210 | equal URL lists come from the same account and day |
| Aggregator.LoadData | bot.js:202-223 | success exactly when all four searches succeed; then the bundle holds the four results, the merged list again as the all-time list, and the score of today's merged list; on failure the status of a failed search |
| Dispatcher.PrefixesExclusive | bot.js:22-130 | no message starts with two command prefixes |
| Dispatcher.SecondField | bot.js:23-26 | a found account is non-empty and free of spaces |
| Dispatcher.SecondFieldIsAccount | bot.js:23-24 | in `<command> <account>`, optionally followed by a space and more text, the account is the second field |
| Dispatcher.SecondFieldMissing | bot.js:24-27 | a command word alone has no account |
| Dispatcher.SecondFieldAfterDoubleSpace | bot.js:23-27 | two spaces after the command word leave no account, whatever follows |
| Dispatcher.GssocUsername | bot.js:81 | the given account when there is one, whatever is remembered; otherwise the remembered one; none exactly when neither exists |
| Dispatcher.FirstVs | bot.js:135 | the first position with a `vs` token and a token on each side, or none when there is no such position |
| Dispatcher.AfterComparePrefix | bot.js:132 | a `!compare` message is the prefix followed by the result; in general the result is what follows the first eight characters, and it is empty when there are none |
| Dispatcher.MatchVs | bot.js:135-143 | a match exactly when some `vs` token has a token on each side; it captures the tokens around the first such `vs` |
| Dispatcher.ParseCompare | bot.js:132-136 | the parse of a message is the match on the tokens after the prefix, trimmed or not |
| Dispatcher.CompareNamesTwoAccounts | bot.js:132-143 | `!compare a vs b` names `a` and `b`, with the separator in any letter case |
| Dispatcher.CapitalVs | bot.js:135 | `VS` is accepted as the separator |
| Dispatcher.CompareOneWordRefused | bot.js:136-140 | a single word after `!compare`, such as `alicevsbob`, is refused |
| Dispatcher.CommandHandler.constructor | bot.js:12 | no account is remembered at start |
| Dispatcher.CommandHandler.OnMessageCreate | bot.js:18-143 | bot messages are ignored. `!github` without an account replies with an error and keeps the state; with one it remembers it. `!gssoc` and `!compare` never change the state and reply with guidance or usage when their arguments are missing. Other messages are ignored |
| Dispatcher.GssocFallsBackToLastGithubAccount | bot.js:30-85 | `!gssoc` before any `!github` gets the guidance reply; after `!github <account>` a bare `!gssoc` reports on that account, and `!gssoc <other>` reports on the other account while the remembered one stays |
| Commands.ProfileUrl | bot.js:194 | the URL is the users endpoint followed by the account |
| Commands.ProfileUrlsDiffer | bot.js:194 | two different accounts get different profile URLs |
| Commands.BundleStats | bot.js:37-38 | the all-time score is the score of the all-time list |
| Commands.RunGithubReport | bot.js:32-40 | a report exactly when the profile and all four searches succeed; its figures are the list lengths, the daily score and the all-time score of the search results; otherwise the fixed error reply |
| Commands.RunGssocReport | bot.js:87-124 | a report exactly when all four searches succeed; its counts are the `gssoc-ext` counts of the search results; otherwise the fixed error reply |
| Commands.RunCompare | bot.js:145-184 | a comparison exactly when both profiles and all eight searches succeed; each column holds the figures a `!github` report of that account would; otherwise the fixed error reply |

## Left out

- The Discord client, its login, `dotenv` and environment variables: plumbing
  outside the bot's logic.
- HTTP requests, headers, the access token and JSON decoding. The search API and
  the profile endpoint are oracles from URL (and page number) to either a status
  or data. Replies are assumed stable for the duration of one command.
- `Promise.all` concurrency, in `loadData` and in `!compare`. The requests are
  modelled one after another, stopping at the first failure. `LoadData` therefore
  promises only that its error is the status of some failed search, which is
  what `Promise.all` guarantees about the rejection it reports.
- The reaction collector, its 60-second timer, and the three reactions the bot
  adds. What remains is the pure answer to one collected reaction
  (`Filters.OnReaction`).
- The clock: the day `new Date().toISOString()` gives is a parameter, `today`.
- Embed layout: colours, field names, emoji decorations, thumbnails,
  timestamps. The placeholder "Fetching… please wait" messages and their
  deletion, and `console` logging, are left out too.
- Unicode: lower-casing and `\s` are modelled on ASCII only. Emoji are compared
  as whole code-point sequences.
- Scoring.Points: JavaScript object lookup also finds inherited properties, so a
  label named `constructor` or `__proto__` would turn the score into a string.
  The model uses a three-key map instead.
- Commands.RunCompare: the `!user1Profile || !user2Profile` check can never
  fire, because a successful profile reply is always an object. The model has no
  such branch.
- Pagination.FetchPaginatedData: the page requests are returned as a list rather
  than observed as HTTP traffic. `Aggregator.LoadData` does not state how many
  requests it makes across the four searches.
