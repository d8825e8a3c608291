/** The `messageCreate` handler: it recognises `!github <account>`,
    `!gssoc [account]` and `!compare <account> vs <account>`, answers malformed
    commands with a fixed message, and remembers the last account a `!github`
    command named, for a later `!gssoc` without an account. What a recognised
    command then fetches and reports is in the Commands module. */
module Dispatcher {
  import opened Wrappers
  import opened Text

  const GithubPrefix := "!github"
  const GssocPrefix := "!gssoc"
  const ComparePrefix := "!compare"

  const MissingUsernameMessage := "Please provide a valid GitHub username!"
  const GssocGuidanceMessage := "Please use the !github command first or provide a username."
  const CompareUsageMessage := "Please use the correct format: `!compare <username1> vs <username2>`"

  /** What the handler does with one message. */
  datatype Action =
    | Ignore
    | Reply(message: string)
    | GithubReport(username: string)
    | GssocReport(username: string)
    | Compare(username1: string, username2: string)

  /** No message starts with two of the command prefixes, so at most one of the
      three command branches runs for a message. */
  lemma PrefixesExclusive(content: string)
    ensures !(StartsWith(content, GithubPrefix) && StartsWith(content, GssocPrefix))
    ensures !(StartsWith(content, GithubPrefix) && StartsWith(content, ComparePrefix))
    ensures !(StartsWith(content, GssocPrefix) && StartsWith(content, ComparePrefix))
  {
    if StartsWith(content, GithubPrefix) {
      assert content[2] == 'i';
    }
    if StartsWith(content, ComparePrefix) {
      assert content[1] == 'c';
    }
  }

  /** `args[1]` of `content.split(' ')`, when it exists and is not the empty
      string (both `undefined` and `''` are falsy). */
  function SecondField(content: string): (arg: Option<string>)
    ensures arg.Some? ==> arg.value != "" && ' ' !in arg.value
  {
    var args := Split(content, ' ');
    if |args| > 1 && args[1] != "" then Some(args[1]) else None
  }

  /** A command word, one space and an account that ends the message or is
      followed by a space: the account is the second field. */
  lemma SecondFieldIsAccount(command: string, account: string, rest: string)
    requires ' ' !in command && account != "" && ' ' !in account
    requires rest == "" || rest[0] == ' '
    ensures SecondField(command + " " + account + rest) == Some(account)
  {
    var s := command + " " + account + rest;
    assert Split(s, ' ') == [command] + Split(account + rest, ' ') by {
      assert s == command + [' '] + (account + rest);
      SplitAfterField(command, ' ', account + rest);
    }
    SplitFirstField(account, ' ', rest);
  }

  /** A command word alone has no second field. */
  lemma SecondFieldMissing(command: string)
    requires ' ' !in command
    ensures SecondField(command) == None
  {
    SplitWithoutSeparator(command, ' ');
  }

  /** Two spaces after the command word make the second field empty, so there
      is no account even if one follows. */
  lemma SecondFieldAfterDoubleSpace(command: string, rest: string)
    requires ' ' !in command
    ensures SecondField(command + "  " + rest) == None
  {
    assert command + "  " + rest == command + [' '] + ("" + [' '] + rest);
    SplitAfterField(command, ' ', "" + [' '] + rest);
    SplitAfterField("", ' ', rest);
  }

  /** `args[1] || lastQueriedUsername`: the account given with `!gssoc`, or
      else the remembered one. */
  function GssocUsername(content: string, lastQueriedUsername: Option<string>): (username: Option<string>)
    ensures username.None? <==> SecondField(content).None? && lastQueriedUsername.None?
    ensures SecondField(content).Some? ==> username == SecondField(content)
    ensures SecondField(content).None? ==> username == lastQueriedUsername
  {
    match SecondField(content)
    case Some(u) => Some(u)
    case None => lastQueriedUsername
  }

  /** The separator of `!compare`, in any letter case. */
  predicate IsVs(token: string) {
    ToLower(token) == "vs"
  }

  /** Token `k` is a `vs` with a token on each side. */
  predicate VsAt(tokens: seq<string>, k: int) {
    1 <= k && k + 1 < |tokens| && IsVs(tokens[k])
  }

  /** The first position from `from` on where `VsAt` holds. */
  function FirstVs(tokens: seq<string>, from: nat): (k: Option<nat>)
    requires 1 <= from
    ensures k.Some? ==> from <= k.value && VsAt(tokens, k.value)
    ensures k.Some? ==> forall m :: from <= m < k.value ==> !VsAt(tokens, m)
    ensures k.None? ==> forall m :: from <= m ==> !VsAt(tokens, m)
    decreases |tokens| - from
  {
    if from + 1 >= |tokens| then None
    else if IsVs(tokens[from]) then Some(from)
    else FirstVs(tokens, from + 1)
  }

  /** `content.slice('!compare'.length)`: what follows the first eight
      characters, which on a `!compare` message are the prefix; `slice` past
      the end gives `''`. */
  function AfterComparePrefix(content: string): (rest: string)
    ensures |content| <= |ComparePrefix| ==> rest == ""
    ensures |ComparePrefix| <= |content| ==> content == content[..|ComparePrefix|] + rest
    ensures StartsWith(content, ComparePrefix) ==> content == ComparePrefix + rest
  {
    if |content| <= |ComparePrefix| then "" else content[|ComparePrefix|..]
  }

  /** `/(\S+)\s+vs\s+(\S+)/i` on whitespace-separated tokens. Both `\s+` need
      whitespace around the `vs`, and the leftmost match starts at the start of
      the token before it, so the regex matches exactly when some token other
      than the first and the last is `vs` in any case, and captures the two
      tokens around the first such one. */
  function MatchVs(tokens: seq<string>): (names: Option<(string, string)>)
    ensures names.Some? <==> exists k :: VsAt(tokens, k)
    ensures names.Some? ==> exists k ::
      VsAt(tokens, k) && (forall m :: 1 <= m < k ==> !VsAt(tokens, m)) &&
      names.value == (tokens[k - 1], tokens[k + 1])
  {
    match FirstVs(tokens, 1)
    case None => None
    case Some(k) =>
      assert VsAt(tokens, k);
      Some((tokens[k - 1], tokens[k + 1]))
  }

  /** The `!compare` arguments: the text after the prefix, trimmed, matched
      against the regex. Trimming first changes nothing, since the match only
      sees tokens. */
  function ParseCompare(content: string): (names: Option<(string, string)>)
    ensures names == MatchVs(Tokens(AfterComparePrefix(content)))
  {
    var args := Trim(AfterComparePrefix(content));
    TokensIgnoreTrim(AfterComparePrefix(content));
    MatchVs(Tokens(args))
  }

  /** What follows the `!compare` prefix. */
  lemma AfterComparePrefixOf(rest: string)
    requires rest != ""
    ensures AfterComparePrefix(ComparePrefix + rest) == rest
  {
    assert (ComparePrefix + rest)[|ComparePrefix|..] == rest;
  }

  /** A `!compare` message with one space between words is the prefix, a
      space and the words joined by spaces. */
  lemma CompareMessageOfWords(u1: string, vs: string, u2: string)
    ensures ComparePrefix + " " + u1 + " " + vs + " " + u2 == ComparePrefix + ([' '] + Join([u1, vs, u2], ' '))
  {
    var words := [u1, vs, u2];
    assert Join(words[1..], ' ') == vs + [' '] + u2;
  }

  /** The tokens after `!compare` of a message with one space between words. */
  lemma CompareTokens(u1: string, vs: string, u2: string)
    requires IsWord(u1) && IsWord(vs) && IsWord(u2)
    ensures Tokens(AfterComparePrefix(ComparePrefix + " " + u1 + " " + vs + " " + u2)) == [u1, vs, u2]
  {
    var args := Join([u1, vs, u2], ' ');
    CompareMessageOfWords(u1, vs, u2);
    AfterComparePrefixOf([' '] + args);
    assert Tokens([' '] + args) == Tokens(args);
    TokensOfJoinedWords([u1, vs, u2]);
  }

  /** `!compare <account> <vs> <account>`, one space between words, names the
      two accounts whatever the letter case of the separator. */
  lemma CompareNamesTwoAccounts(u1: string, vs: string, u2: string)
    requires IsWord(u1) && IsWord(vs) && IsWord(u2) && IsVs(vs)
    ensures ParseCompare(ComparePrefix + " " + u1 + " " + vs + " " + u2) == Some((u1, u2))
  {
    CompareTokens(u1, vs, u2);
    assert VsAt([u1, vs, u2], 1);
  }

  /** The separator may be written in capitals. */
  lemma CapitalVs()
    ensures IsVs("VS")
  {
    var t := ToLower("VS");
    assert t[0] == 'v' && t[1] == 's';
  }

  /** A single word after `!compare`, such as `alicevsbob`, has no separate
      `vs` and is refused. */
  lemma CompareOneWordRefused(w: string)
    requires IsWord(w)
    ensures ParseCompare(ComparePrefix + " " + w) == None
  {
    assert ComparePrefix + " " + w == ComparePrefix + ([' '] + w);
    AfterComparePrefixOf([' '] + w);
    assert ([' '] + w)[1..] == w;
    TokensOfWord(w);
  }

  /** The handler and its one piece of state. */
  class CommandHandler {
    /** The last account named by a `!github` command; never the empty string. */
    var lastQueriedUsername: Option<string>

    ghost predicate Valid()
      reads this
    {
      lastQueriedUsername.Some? ==> lastQueriedUsername.value != ""
    }

    constructor ()
      ensures Valid() && lastQueriedUsername == None
    {
      lastQueriedUsername := None;
    }

    /** `client.on('messageCreate', ...)` up to the point where a command
        starts fetching. Messages from bots are ignored. `!github` without an
        account gets an error reply and leaves the remembered account alone;
        with one it remembers the account before any fetch, so it stays
        remembered even if the fetch fails. `!gssoc` never changes the
        remembered account, and neither does `!compare`. */
    method OnMessageCreate(authorIsBot: bool, content: string) returns (action: Action)
      requires Valid()
      modifies this
      ensures Valid()
      ensures authorIsBot ==> action == Ignore && lastQueriedUsername == old(lastQueriedUsername)
      ensures !authorIsBot && StartsWith(content, GithubPrefix) ==>
        match SecondField(content)
        case None => action == Reply(MissingUsernameMessage) && lastQueriedUsername == old(lastQueriedUsername)
        case Some(u) => action == GithubReport(u) && lastQueriedUsername == Some(u)
      ensures !authorIsBot && StartsWith(content, GssocPrefix) ==>
        lastQueriedUsername == old(lastQueriedUsername) &&
        action == match GssocUsername(content, old(lastQueriedUsername))
                  case None => Reply(GssocGuidanceMessage)
                  case Some(u) => GssocReport(u)
      ensures !authorIsBot && StartsWith(content, ComparePrefix) ==>
        lastQueriedUsername == old(lastQueriedUsername) &&
        action == match ParseCompare(content)
                  case None => Reply(CompareUsageMessage)
                  case Some(names) => Compare(names.0, names.1)
      ensures !StartsWith(content, GithubPrefix) && !StartsWith(content, GssocPrefix) && !StartsWith(content, ComparePrefix) ==>
        action == Ignore && lastQueriedUsername == old(lastQueriedUsername)
    {
      if authorIsBot {
        return Ignore;
      }
      PrefixesExclusive(content);
      action := Ignore;

      if StartsWith(content, GithubPrefix) {
        var username := SecondField(content);
        if username.None? {
          return Reply(MissingUsernameMessage);
        }
        lastQueriedUsername := username;
        action := GithubReport(username.value);
      }

      if StartsWith(content, GssocPrefix) {
        var username := GssocUsername(content, lastQueriedUsername);
        if username.None? {
          return Reply(GssocGuidanceMessage);
        }
        action := GssocReport(username.value);
      }

      if StartsWith(content, ComparePrefix) {
        var names := ParseCompare(content);
        if names.None? {
          return Reply(CompareUsageMessage);
        }
        action := Compare(names.value.0, names.value.1);
      }
    }
  }

  /** A `!gssoc` before any `!github` gets the guidance message and fetches
      nothing; after `!github <account>`, a bare `!gssoc` reports on that
      account, while `!gssoc <other>` reports on the other account and leaves
      the remembered one as it was. */
  method GssocFallsBackToLastGithubAccount(account: string, other: string)
    returns (first: Action, second: Action, third: Action, fourth: Action, remembered: Option<string>)
    requires account != "" && ' ' !in account
    requires other != "" && ' ' !in other
    ensures first == Reply(GssocGuidanceMessage)
    ensures second == GithubReport(account)
    ensures third == GssocReport(account)
    ensures fourth == GssocReport(other)
    ensures remembered == Some(account)
  {
    var handler := new CommandHandler();
    var github := GithubPrefix + " " + account;
    var gssoc := GssocPrefix + " " + other;
    assert StartsWith(GssocPrefix, GssocPrefix) && StartsWith(github, GithubPrefix);
    assert StartsWith(gssoc, GssocPrefix);
    assert ' ' !in GssocPrefix && ' ' !in GithubPrefix;
    SecondFieldMissing(GssocPrefix);
    assert github + "" == github && gssoc + "" == gssoc;
    SecondFieldIsAccount(GithubPrefix, account, "");
    SecondFieldIsAccount(GssocPrefix, other, "");
    first := handler.OnMessageCreate(false, GssocPrefix);
    second := handler.OnMessageCreate(false, github);
    third := handler.OnMessageCreate(false, GssocPrefix);
    fourth := handler.OnMessageCreate(false, gssoc);
    remembered := handler.lastQueriedUsername;
  }
}
