/** Label filters and what is built from them: the `gssoc-ext` filters and the
    per-tier counts of the `!gssoc` report, the reaction emoji that select a
    tier on a `!github` report, and the description of the per-tier list. */
module Filters {
  import opened Wrappers
  import opened Text
  import opened Scoring

  /** `pr.labels.some(label => label.name.toLowerCase() === target)`. */
  predicate HasLabel(item: Item, target: string)
    ensures HasLabel(item, target) <==> exists l :: l in item.labels && ToLower(l.name) == target
  {
    exists i :: 0 <= i < |item.labels| && ToLower(item.labels[i].name) == target
  }

  /** `items.filter(pr => HasLabel(pr, target))`: every item that carries the
      target label keeps all its occurrences, every other item is dropped. */
  function FilterByLabel(items: seq<Item>, target: string): (kept: seq<Item>)
    ensures |kept| <= |items|
    ensures forall i :: 0 <= i < |kept| ==> HasLabel(kept[i], target)
    ensures forall x :: multiset(kept)[x] == if HasLabel(x, target) then multiset(items)[x] else 0
  {
    if items == [] then []
    else
      assert items == [items[0]] + items[1..];
      (if HasLabel(items[0], target) then [items[0]] else []) + FilterByLabel(items[1..], target)
  }

  /** `a` is `b` with some elements left out, the rest in their original order. */
  predicate IsSubsequence<T(==)>(a: seq<T>, b: seq<T>)
    decreases |b|
  {
    if b == [] then a == []
    else (a != [] && a[0] == b[0] && IsSubsequence(a[1..], b[1..])) || IsSubsequence(a, b[1..])
  }

  /** A filter keeps the order of the items it keeps. */
  lemma {:induction false} FilterIsSubsequence(items: seq<Item>, target: string)
    ensures IsSubsequence(FilterByLabel(items, target), items)
  {
    if items != [] {
      FilterIsSubsequence(items[1..], target);
      var kept := FilterByLabel(items, target);
      if HasLabel(items[0], target) {
        assert kept[1..] == FilterByLabel(items[1..], target);
      } else {
        assert kept == FilterByLabel(items[1..], target);
      }
    }
  }

  /** A filter is empty exactly when no item carries the label. */
  lemma FilterEmpty(items: seq<Item>, target: string)
    ensures FilterByLabel(items, target) == [] <==> forall i :: 0 <= i < |items| ==> !HasLabel(items[i], target)
  {
    var kept := FilterByLabel(items, target);
    if kept != [] {
      assert multiset(kept)[kept[0]] > 0;
      assert kept[0] in multiset(items);
    }
    forall i | 0 <= i < |items| && HasLabel(items[i], target)
      ensures kept != []
    {
      assert multiset(items)[items[i]] > 0;
    }
  }

  /** The label of the partner programme whose pull requests `!gssoc` reports. */
  const GssocLabel := "gssoc-ext"

  /** The three difficulty tiers. */
  datatype Tier = Level1 | Level2 | Level3

  function TierLabel(tier: Tier): string {
    match tier
    case Level1 => "level1"
    case Level2 => "level2"
    case Level3 => "level3"
  }

  /** The figures of a `!gssoc` report: the `gssoc-ext` pull requests merged,
      the `gssoc-ext` issues assigned and pull requests open, and the merged
      `gssoc-ext` pull requests per tier. */
  datatype GssocCounts = GssocCounts(mergedPRs: nat, assignedIssues: nat, openPRs: nat, level1: nat, level2: nat, level3: nat)

  /** The number of merged `gssoc-ext` pull requests carrying a tier's label. */
  function LevelCount(gssocMergedPRs: seq<Item>, tier: Tier): nat {
    |FilterByLabel(gssocMergedPRs, TierLabel(tier))|
  }

  /** Reference count: the number of items that carry both labels `a` and `b`
      (one label when `a == b`). */
  function CountCarrying(items: seq<Item>, a: string, b: string): (n: nat)
    ensures n <= |items|
  {
    if items == [] then 0
    else (if HasLabel(items[0], a) && HasLabel(items[0], b) then 1 else 0) + CountCarrying(items[1..], a, b)
  }

  /** A filter keeps as many items as carry its label. */
  lemma {:induction false} FilterCount(items: seq<Item>, a: string)
    ensures |FilterByLabel(items, a)| == CountCarrying(items, a, a)
  {
    if items != [] {
      FilterCount(items[1..], a);
    }
  }

  /** Filtering by `a` and then by `b` keeps as many items as carry both. */
  lemma {:induction false} FilterTwiceCount(items: seq<Item>, a: string, b: string)
    ensures |FilterByLabel(FilterByLabel(items, a), b)| == CountCarrying(items, a, b)
  {
    if items != [] {
      FilterTwiceCount(items[1..], a, b);
      var rest := FilterByLabel(items[1..], a);
      if HasLabel(items[0], a) {
        var kept := [items[0]] + rest;
        assert FilterByLabel(items, a) == kept;
        assert kept[0] == items[0] && kept[1..] == rest;
      } else {
        assert FilterByLabel(items, a) == rest;
      }
    }
  }

  /** The `gssoc-ext` filters and `levelCounts` of the `!gssoc` report: the
      numbers of merged pull requests, assigned issues and open pull requests
      labelled `gssoc-ext`, and for each tier the number of merged pull
      requests labelled both `gssoc-ext` and the tier's label. So no tier count
      exceeds the merged `gssoc-ext` count, which does not exceed the merged
      count. */
  function CountGssoc(assignedIssues: seq<Item>, openPRs: seq<Item>, mergedPRs: seq<Item>): (c: GssocCounts)
    ensures c.mergedPRs == CountCarrying(mergedPRs, GssocLabel, GssocLabel)
    ensures c.assignedIssues == CountCarrying(assignedIssues, GssocLabel, GssocLabel)
    ensures c.openPRs == CountCarrying(openPRs, GssocLabel, GssocLabel)
    ensures c.level1 == CountCarrying(mergedPRs, GssocLabel, TierLabel(Level1))
    ensures c.level2 == CountCarrying(mergedPRs, GssocLabel, TierLabel(Level2))
    ensures c.level3 == CountCarrying(mergedPRs, GssocLabel, TierLabel(Level3))
    ensures c.level1 <= c.mergedPRs && c.level2 <= c.mergedPRs && c.level3 <= c.mergedPRs
    ensures c.mergedPRs <= |mergedPRs| && c.assignedIssues <= |assignedIssues| && c.openPRs <= |openPRs|
  {
    var gssocMergedPRs := FilterByLabel(mergedPRs, GssocLabel);
    FilterCount(mergedPRs, GssocLabel);
    FilterCount(assignedIssues, GssocLabel);
    FilterCount(openPRs, GssocLabel);
    FilterTwiceCount(mergedPRs, GssocLabel, TierLabel(Level1));
    FilterTwiceCount(mergedPRs, GssocLabel, TierLabel(Level2));
    FilterTwiceCount(mergedPRs, GssocLabel, TierLabel(Level3));
    GssocCounts(
      |gssocMergedPRs|,
      |FilterByLabel(assignedIssues, GssocLabel)|,
      |FilterByLabel(openPRs, GssocLabel)|,
      LevelCount(gssocMergedPRs, Level1),
      LevelCount(gssocMergedPRs, Level2),
      LevelCount(gssocMergedPRs, Level3))
  }

  /** A filter of a single item keeps it exactly when it carries the label. */
  lemma FilterSingle(pr: Item, target: string)
    ensures FilterByLabel([pr], target) == if HasLabel(pr, target) then [pr] else []
  {
    assert [pr][1..] == [];
  }

  /** An item carrying the labels `gssoc-ext`, `level1` and `level2`. */
  predicate IsGssocLevel1And2(pr: Item) {
    pr.labels == [Label(GssocLabel), Label("level1"), Label("level2")]
  }

  /** An item carries every lower-case label name it has. */
  lemma CarriesLabel(pr: Item, i: nat, name: string)
    requires i < |pr.labels| && pr.labels[i].name == name
    requires forall k :: 0 <= k < |name| ==> !IsUpper(name[k])
    ensures HasLabel(pr, name)
  {
    ToLowerOfLowerCase(name);
  }

  lemma GssocLevel1And2NotLevel3(pr: Item)
    requires IsGssocLevel1And2(pr)
    ensures !HasLabel(pr, "level3")
  {
    LabelsNotLevel3(pr);
  }

  /** No label of such an item is `level3` in any letter case. */
  lemma LabelsNotLevel3(pr: Item)
    requires IsGssocLevel1And2(pr)
    ensures forall i :: 0 <= i < |pr.labels| ==> ToLower(pr.labels[i].name) != "level3"
  {
    forall i | 0 <= i < |pr.labels|
      ensures ToLower(pr.labels[i].name) != "level3"
    {
      NotLevel3(pr.labels[i].name);
    }
  }

  /** Neither `gssoc-ext` nor a `level` name ending in another digit is
      `level3` in any letter case. */
  lemma NotLevel3(name: string)
    requires name == GssocLabel || name == "level1" || name == "level2"
    ensures ToLower(name) != "level3"
  {
    var key := ToLower(name);
    if name == GssocLabel {
      assert |key| == 9;
    } else {
      assert key[5] == LowerChar(name[5]) && key[5] != '3';
    }
  }

  lemma GssocMergedOfTierItem(pr: Item)
    requires IsGssocLevel1And2(pr)
    ensures FilterByLabel([pr], GssocLabel) == [pr]
  {
    CarriesLabel(pr, 0, GssocLabel);
    FilterSingle(pr, GssocLabel);
  }

  lemma Level1CountOfTierItem(pr: Item)
    requires IsGssocLevel1And2(pr)
    ensures LevelCount([pr], Level1) == 1
  {
    CarriesLabel(pr, 1, "level1");
    FilterSingle(pr, "level1");
  }

  lemma Level2CountOfTierItem(pr: Item)
    requires IsGssocLevel1And2(pr)
    ensures LevelCount([pr], Level2) == 1
  {
    CarriesLabel(pr, 2, "level2");
    FilterSingle(pr, "level2");
  }

  lemma NoLevel3OfTierItem(pr: Item)
    requires IsGssocLevel1And2(pr)
    ensures LevelCount([pr], Level3) == 0
  {
    GssocLevel1And2NotLevel3(pr);
    FilterSingle(pr, "level3");
  }

  /** The tiers are not a partition: one merged `gssoc-ext` pull request
      labelled `level1` and `level2` counts under both, so the tier counts can
      add up to more than the merged count. */
  lemma TiersOverlap(pr: Item)
    requires IsGssocLevel1And2(pr)
    ensures var c := CountGssoc([], [], [pr]);
      c.mergedPRs == 1 && c.level1 == 1 && c.level2 == 1 && c.level3 == 0 &&
      c.level1 + c.level2 > c.mergedPRs
  {
    GssocMergedOfTierItem(pr);
    Level1CountOfTierItem(pr);
    Level2CountOfTierItem(pr);
    NoLevel3OfTierItem(pr);
  }

  /** The reaction emoji `1️⃣`, `2️⃣`, `3️⃣`: a digit, U+FE0F and U+20E3. */
  function TierEmoji(tier: Tier): string {
    match tier
    case Level1 => "1\U{FE0F}\U{20E3}"
    case Level2 => "2\U{FE0F}\U{20E3}"
    case Level3 => "3\U{FE0F}\U{20E3}"
  }

  /** The tier a reaction selects; no tier for any other emoji. */
  function TierOfEmoji(emoji: string): (tier: Option<Tier>)
    ensures tier.Some? ==> TierEmoji(tier.value) == emoji
    ensures tier.None? ==> forall t: Tier :: TierEmoji(t) != emoji
  {
    if emoji == TierEmoji(Level1) then Some(Level1)
    else if emoji == TierEmoji(Level2) then Some(Level2)
    else if emoji == TierEmoji(Level3) then Some(Level3)
    else None
  }

  /** Each tier's emoji selects that tier. */
  lemma TierOfEmojiRoundTrip(tier: Tier)
    ensures TierOfEmoji(TierEmoji(tier)) == Some(tier)
  {
    match tier
    case Level1 =>
    case Level2 =>
      assert TierEmoji(Level2)[0] != TierEmoji(Level1)[0];
    case Level3 =>
      assert TierEmoji(Level3)[0] != TierEmoji(Level1)[0];
      assert TierEmoji(Level3)[0] != TierEmoji(Level2)[0];
  }

  /** One line of a tier list: a Markdown link to the pull request. */
  function PrLine(pr: Item): string {
    "- [" + pr.title + "](" + pr.htmlUrl + ")"
  }

  function PrLines(prs: seq<Item>): (lines: seq<string>)
    ensures |lines| == |prs|
    ensures forall i :: 0 <= i < |prs| ==> lines[i] == PrLine(prs[i])
  {
    if prs == [] then [] else [PrLine(prs[0])] + PrLines(prs[1..])
  }

  const NoPRsFound := "No PRs found."

  /** The description of a tier list: the lines of the pull requests joined by
      newlines, or `No PRs found.` when that is empty, which is exactly when
      there is no pull request. */
  function LevelDescription(prs: seq<Item>): (description: string)
    ensures description == NoPRsFound <==> prs == []
  {
    var joined := Join(PrLines(prs), '\n');
    assert prs != [] ==> joined != "" && joined != NoPRsFound by {
      if prs != [] {
        assert joined[0] == '-';
      }
    }
    if joined == "" then NoPRsFound else joined
  }

  /** A line built from a title and a link without newlines has no newline. */
  lemma PrLineWithoutNewline(pr: Item)
    requires '\n' !in pr.title && '\n' !in pr.htmlUrl
    ensures '\n' !in PrLine(pr)
  {
    var line := PrLine(pr);
    var a, b := "- [" + pr.title, "](" + pr.htmlUrl;
    assert line == a + b + ")";
    assert '\n' !in a && '\n' !in b;
  }

  /** No line of a list whose titles and links are free of newlines holds one. */
  lemma PrLinesWithoutNewline(prs: seq<Item>)
    requires forall i :: 0 <= i < |prs| ==> '\n' !in prs[i].title && '\n' !in prs[i].htmlUrl
    ensures forall i :: 0 <= i < |prs| ==> '\n' !in PrLines(prs)[i]
  {
    forall i | 0 <= i < |prs|
      ensures '\n' !in PrLines(prs)[i]
    {
      PrLineWithoutNewline(prs[i]);
    }
  }

  /** A non-empty list is described by its lines joined with newlines. */
  lemma LevelDescriptionOfNonEmpty(prs: seq<Item>)
    requires prs != []
    ensures LevelDescription(prs) == Join(PrLines(prs), '\n')
  {
    assert LevelDescription(prs) != NoPRsFound;
  }

  /** Lines free of newlines, joined with newlines, split back into those lines. */
  lemma JoinedLinesSplit(prs: seq<Item>)
    requires SingleLines(prs) && prs != []
    ensures Split(Join(PrLines(prs), '\n'), '\n') == PrLines(prs)
  {
    PrLinesWithoutNewline(prs);
    SplitJoin(PrLines(prs), '\n');
  }

  /** When no title or link holds a newline, the description of a non-empty
      list has one line per pull request, in list order. */
  lemma LevelDescriptionLines(prs: seq<Item>)
    requires prs != [] && SingleLines(prs)
    ensures Split(LevelDescription(prs), '\n') == PrLines(prs)
  {
    JoinedLinesSplit(prs);
    LevelDescriptionOfNonEmpty(prs);
  }

  /** The follow-up message for one reaction: its title and description. */
  datatype LevelEmbed = LevelEmbed(title: string, description: string)

  function TierTitle(tier: Tier): string {
    match tier
    case Level1 => "Level 1 PRs"
    case Level2 => "Level 2 PRs"
    case Level3 => "Level 3 PRs"
  }

  /** No title or link of the list holds a newline. */
  predicate SingleLines(prs: seq<Item>) {
    forall i :: 0 <= i < |prs| ==> '\n' !in prs[i].title && '\n' !in prs[i].htmlUrl
  }

  /** A filter keeps only items of the list, so it keeps them free of newlines. */
  lemma FilterKeepsSingleLines(items: seq<Item>, target: string)
    ensures SingleLines(items) ==> SingleLines(FilterByLabel(items, target))
  {
    var kept := FilterByLabel(items, target);
    if SingleLines(items) {
      forall i | 0 <= i < |kept|
        ensures '\n' !in kept[i].title && '\n' !in kept[i].htmlUrl
      {
        assert kept[i] in multiset(kept);
        assert kept[i] in items;
      }
    }
  }

  /** `buildLevelEmbed`: the tier title followed by the account, and the
      description of the list, which is `No PRs found.` exactly when the list
      is empty and otherwise lists each pull request on a line of its own. */
  function BuildLevelEmbed(prs: seq<Item>, title: string, username: string): (embed: LevelEmbed)
    ensures embed.title == title + " - " + username
    ensures embed.description == NoPRsFound <==> prs == []
    ensures prs != [] && SingleLines(prs) ==> Split(embed.description, '\n') == PrLines(prs)
  {
    var embed := LevelEmbed(title + " - " + username, LevelDescription(prs));
    if prs != [] && SingleLines(prs) then
      LevelDescriptionLines(prs);
      embed
    else
      embed
  }

  /** The reaction handler of a `!github` report: reactions by bots and emoji
      other than the three tier emoji get no answer; a tier emoji gets the list
      of today's merged pull requests carrying that tier's label, which says
      `No PRs found.` exactly when none of them carries it and otherwise lists
      exactly those pull requests, one line each, in the order of the report. */
  function OnReaction(todayMergedPRs: seq<Item>, emoji: string, reactorIsBot: bool, reactorName: string): (reply: Option<LevelEmbed>)
    ensures reply.Some? <==> !reactorIsBot && exists t: Tier :: TierEmoji(t) == emoji
    ensures reply.Some? ==> reply.value.title == TierTitle(TierOfEmoji(emoji).value) + " - " + reactorName
    ensures reply.Some? ==>
      (reply.value.description == NoPRsFound <==>
        forall i :: 0 <= i < |todayMergedPRs| ==> !HasLabel(todayMergedPRs[i], TierLabel(TierOfEmoji(emoji).value)))
    ensures reply.Some? && SingleLines(todayMergedPRs) &&
            FilterByLabel(todayMergedPRs, TierLabel(TierOfEmoji(emoji).value)) != [] ==>
      Split(reply.value.description, '\n') == PrLines(FilterByLabel(todayMergedPRs, TierLabel(TierOfEmoji(emoji).value)))
  {
    if reactorIsBot then None
    else match TierOfEmoji(emoji)
      case None => None
      case Some(tier) =>
        var prs := FilterByLabel(todayMergedPRs, TierLabel(tier));
        FilterEmpty(todayMergedPRs, TierLabel(tier));
        FilterKeepsSingleLines(todayMergedPRs, TierLabel(tier));
        Some(BuildLevelEmbed(prs, TierTitle(tier), reactorName))
  }
}
