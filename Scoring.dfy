/** Label scoring: the point value of a pull request is the sum of the points of
    its labels, looked up by lower-cased name in a three-entry table, and the
    score of a list of pull requests is the sum over the list. The source has two
    identical copies of the computation, `calculateDailyScores` (applied to the
    pull requests merged today) and `calculateTotalScore` (applied to all merged
    pull requests); here the first is an imperative accumulation and the second a
    fold, and both are proved equal to the reference sum `Score`. */
module Scoring {
  import opened Text

  /** A label attached to an issue or pull request. */
  datatype Label = Label(name: string)

  /** An issue or pull request as the search API returns it. */
  datatype Item = Item(title: string, htmlUrl: string, labels: seq<Label>)

  /** Points per tier label, keyed by lower-cased label name. */
  const LabelPoints: map<string, nat> := map["level1" := 10, "level2" := 25, "level3" := 45]

  /** The points one label contributes: its table entry, or 0 for any other
      name, so always one of the four values a label can be worth. */
  function Points(name: string): (points: nat)
    ensures points == 0 || points == 10 || points == 25 || points == 45
  {
    var key := ToLower(name);
    if key in LabelPoints then LabelPoints[key] else 0
  }

  /** The table, read back through `Points`: each tier name scores its value in
      any letter case, and every other name scores 0. */
  lemma PointsTable(name: string)
    ensures Points(name) == 10 <==> ToLower(name) == "level1"
    ensures Points(name) == 25 <==> ToLower(name) == "level2"
    ensures Points(name) == 45 <==> ToLower(name) == "level3"
    ensures Points(name) == 0 <==> ToLower(name) !in LabelPoints
  {
  }

  /** Reference definition: the points of all labels of a list, in order. */
  function LabelsScore(labels: seq<Label>): nat {
    if labels == [] then 0
    else LabelsScore(labels[..|labels| - 1]) + Points(labels[|labels| - 1].name)
  }

  function ItemScore(item: Item): nat {
    LabelsScore(item.labels)
  }

  /** Reference definition: the sum, over items, of the sum over each item's labels. */
  function Score(items: seq<Item>): nat {
    if items == [] then 0
    else Score(items[..|items| - 1]) + ItemScore(items[|items| - 1])
  }

  /** Label scores add up over concatenation. */
  lemma {:induction false} LabelsScoreAppend(a: seq<Label>, b: seq<Label>)
    ensures LabelsScore(a + b) == LabelsScore(a) + LabelsScore(b)
    decreases |b|
  {
    if b == [] {
      assert a + b == a;
    } else {
      var b' := b[..|b| - 1];
      assert (a + b)[..|a + b| - 1] == a + b';
      LabelsScoreAppend(a, b');
    }
  }

  /** The score is additive over concatenation: score(a ++ b) = score(a) + score(b). */
  lemma {:induction false} ScoreAppend(a: seq<Item>, b: seq<Item>)
    ensures Score(a + b) == Score(a) + Score(b)
    decreases |b|
  {
    if b == [] {
      assert a + b == a;
    } else {
      var b' := b[..|b| - 1];
      assert (a + b)[..|a + b| - 1] == a + b';
      ScoreAppend(a, b');
    }
  }

  /** The score does not depend on the order of the items. */
  lemma {:induction false} ScorePermutation(a: seq<Item>, b: seq<Item>)
    requires multiset(a) == multiset(b)
    ensures Score(a) == Score(b)
    decreases |a|
  {
    if a != [] {
      var x := a[0];
      assert a == [x] + a[1..];
      assert x in multiset(b);
      var j :| 0 <= j < |b| && b[j] == x;
      var rest := b[..j] + b[j + 1..];
      assert b == b[..j] + [x] + b[j + 1..];
      assert multiset(b) == multiset(b[..j]) + multiset{x} + multiset(b[j + 1..]);
      assert multiset(rest) == multiset(b[..j]) + multiset(b[j + 1..]);
      assert multiset(a) == multiset{x} + multiset(a[1..]);
      assert multiset(a[1..]) == multiset(a) - multiset{x};
      assert multiset(rest) == multiset(b) - multiset{x};
      ScorePermutation(a[1..], rest);
      ScoreAppend([x], a[1..]);
      ScoreAppend(b[..j] + [x], b[j + 1..]);
      ScoreAppend(b[..j], [x]);
      ScoreAppend(b[..j], b[j + 1..]);
    }
  }

  /** `calculateDailyScores`: a running score, increased by the table value of
      every label of every item, in order. */
  method CalculateDailyScores(mergedPRs: seq<Item>) returns (score: nat)
    ensures score == Score(mergedPRs)
  {
    score := 0;
    for i := 0 to |mergedPRs|
      invariant score == Score(mergedPRs[..i])
    {
      var pr := mergedPRs[i];
      for j := 0 to |pr.labels|
        invariant score == Score(mergedPRs[..i]) + LabelsScore(pr.labels[..j])
      {
        var labelName := ToLower(pr.labels[j].name);
        if labelName in LabelPoints && LabelPoints[labelName] != 0 {
          score := score + LabelPoints[labelName];
        }
        assert pr.labels[..j + 1][..j] == pr.labels[..j];
      }
      assert pr.labels[..|pr.labels|] == pr.labels;
      assert mergedPRs[..i + 1][..i] == mergedPRs[..i];
    }
    assert mergedPRs[..|mergedPRs|] == mergedPRs;
  }

  /** The inner `forEach` of `calculateTotalScore`: add each label's points to
      the running score, first label first. */
  function LabelFold(score: nat, labels: seq<Label>): nat
    decreases |labels|
  {
    if labels == [] then score else LabelFold(score + Points(labels[0].name), labels[1..])
  }

  /** The outer `reduce` of `calculateTotalScore`, starting from `score`. */
  function ScoreFold(score: nat, items: seq<Item>): nat
    decreases |items|
  {
    if items == [] then score else ScoreFold(LabelFold(score, items[0].labels), items[1..])
  }

  lemma {:induction false} LabelFoldSums(score: nat, labels: seq<Label>)
    ensures LabelFold(score, labels) == score + LabelsScore(labels)
    decreases |labels|
  {
    if labels != [] {
      LabelFoldSums(score + Points(labels[0].name), labels[1..]);
      LabelsScoreAppend([labels[0]], labels[1..]);
      assert [labels[0]] + labels[1..] == labels;
      assert [labels[0]][..0] == [];
    }
  }

  lemma {:induction false} ScoreFoldSums(score: nat, items: seq<Item>)
    ensures ScoreFold(score, items) == score + Score(items)
    decreases |items|
  {
    if items != [] {
      LabelFoldSums(score, items[0].labels);
      ScoreFoldSums(LabelFold(score, items[0].labels), items[1..]);
      ScoreAppend([items[0]], items[1..]);
      assert [items[0]] + items[1..] == items;
      assert [items[0]][..0] == [];
    }
  }

  /** `calculateTotalScore`: the same computation as `calculateDailyScores`,
      written as the source writes it, a `reduce` from 0. */
  function CalculateTotalScore(mergedPRs: seq<Item>): (score: nat)
    ensures score == Score(mergedPRs)
  {
    ScoreFoldSums(0, mergedPRs);
    ScoreFold(0, mergedPRs)
  }

  /** The two score functions of the source agree on every input. */
  method DailyAndTotalAgree(mergedPRs: seq<Item>) returns (daily: nat, total: nat)
    ensures daily == total == Score(mergedPRs)
  {
    daily := CalculateDailyScores(mergedPRs);
    total := CalculateTotalScore(mergedPRs);
  }

  /** Each tier name, in lower case, scores its table value. */
  lemma TierPoints()
    ensures Points("level1") == 10 && Points("level2") == 25 && Points("level3") == 45
  {
    assert Points("level1") == 10 by { ToLowerOfLowerCase("level1"); }
    assert Points("level2") == 25 by { ToLowerOfLowerCase("level2"); }
    assert Points("level3") == 45 by { ToLowerOfLowerCase("level3"); }
  }

  /** Letter case does not matter: `Level2` scores as `level2`. */
  lemma MixedCaseTierPoints()
    ensures Points("Level2") == 25
  {
    var t := ToLower("Level2");
    assert t[0] == 'l';
    assert forall i :: 1 <= i < 6 ==> t[i] == "level2"[i];
    assert t == "level2";
    TierPoints();
  }

  /** Every scoring label of an item counts: one pull request labelled both
      `level1` and `Level2` is worth 10 + 25 = 35. */
  lemma TwoTiersOnOneItem(title: string, url: string)
    ensures ItemScore(Item(title, url, [Label("level1"), Label("Level2")])) == 35
  {
    var labels := [Label("level1"), Label("Level2")];
    TierPoints();
    MixedCaseTierPoints();
    assert labels[..1] == [Label("level1")];
    assert LabelsScore(labels[..1]) == LabelsScore([]) + Points("level1");
    assert LabelsScore(labels) == LabelsScore(labels[..1]) + Points("Level2");
  }

  /** An empty list scores 0, and two pull requests merged today, one labelled
      `level1` and one labelled `level2`, give a daily score of 35. */
  lemma DailyScoreExample(a: Item, b: Item)
    requires a.labels == [Label("level1")] && b.labels == [Label("level2")]
    ensures Score([]) == 0
    ensures Score([a, b]) == 35
  {
    TierPoints();
    assert [Label("level1")][..0] == [] && [Label("level2")][..0] == [];
    assert ItemScore(a) == LabelsScore([]) + Points("level1");
    assert ItemScore(b) == LabelsScore([]) + Points("level2");
    assert [a, b][..1] == [a];
    assert [a][..0] == [];
    assert Score([a]) == Score([]) + ItemScore(a);
    assert Score([a, b]) == Score([a]) + ItemScore(b);
  }
}
