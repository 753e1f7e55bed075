/** `calculateBestMatch`: scan the store in order, score each rule by how many
    of its keywords occur in the nurse's message, and keep the first rule with
    the strictly highest score. When nothing scores, the patient stays silent. */
module Matcher {
  import opened Options
  import opened Text
  import opened Rules

  /** `{ count, reply, match }`. The source's `match` is a reference to the
      matched rule's keyword array; here it is the position of that rule in
      the store (`None` for the empty `[]` of the silent default). */
  datatype Match = Match(count: nat, reply: string, at: Option<nat>)

  const SilenceReply: string := "……（病人沉默不語）"

  /** The initial value of `best`: returned when no rule scores above zero. */
  const Silence: Match := Match(0, SilenceReply, None)

  /** The keyword list the match refers to (`best.match`). */
  function MatchedKeywords(rules: seq<Rule>, m: Match): seq<KeywordEntry>
    requires m.at.Some? ==> m.at.value < |rules|
  {
    if m.at.Some? then rules[m.at.value].keywords else []
  }

  /** The value of `best` after the `forEach` has visited `rules`. */
  function BestMatch(input: string, rules: seq<Rule>): (m: Match)
    ensures m.at.Some? ==> m.at.value < |rules|
  {
    if rules == [] then Silence
    else
      var best := BestMatch(input, rules[..|rules| - 1]);
      var count := Score(input, rules[|rules| - 1].keywords);
      if count > best.count then Match(count, rules[|rules| - 1].reply, Some(|rules| - 1))
      else best
  }

  /** The declarative meaning of the matcher's result: no rule scores more;
      a zero score means the silent default; otherwise the result names the
      EARLIEST rule with the highest score, with that rule's reply. */
  predicate IsFirstBest(input: string, rules: seq<Rule>, m: Match) {
    (forall j | 0 <= j < |rules| :: Score(input, rules[j].keywords) <= m.count)
    && (m.count == 0 ==> m == Silence)
    && (m.count > 0 ==>
          m.at.Some? && m.at.value < |rules|
          && m.count == Score(input, rules[m.at.value].keywords)
          && m.reply == rules[m.at.value].reply
          && forall j | 0 <= j < m.at.value :: Score(input, rules[j].keywords) < m.count)
  }

  lemma {:induction false} BestMatchIsFirstBest(input: string, rules: seq<Rule>)
    ensures IsFirstBest(input, rules, BestMatch(input, rules))
  {
    if rules != [] {
      var init := rules[..|rules| - 1];
      BestMatchIsFirstBest(input, init);
      assert forall j | 0 <= j < |init| :: rules[j] == init[j];
    }
  }

  /** At most one result fits the declarative meaning, so `BestMatch` is the
      only one. */
  lemma FirstBestIsUnique(input: string, rules: seq<Rule>, m1: Match, m2: Match)
    requires IsFirstBest(input, rules, m1) && IsFirstBest(input, rules, m2)
    ensures m1 == m2
  {
    assert m1.count == m2.count by {
      if m1.count > 0 { assert Score(input, rules[m1.at.value].keywords) <= m2.count; }
      if m2.count > 0 { assert Score(input, rules[m2.at.value].keywords) <= m1.count; }
    }
  }

  /** The result's count is the score of the rule it names and never exceeds
      that rule's number of keywords; it is zero exactly when no keyword of
      any rule occurs in the input, and then the result is the silent default. */
  lemma BestMatchCount(input: string, rules: seq<Rule>)
    ensures var m := BestMatch(input, rules);
      (m.at.Some? ==> m.at.value < |rules|)
      && m.count == Score(input, MatchedKeywords(rules, m))
      && m.count <= |MatchedKeywords(rules, m)|
      && (m.count == 0 <==>
            forall j, k | 0 <= j < |rules| && 0 <= k < |rules[j].keywords| ::
              !Contains(input, rules[j].keywords[k].word))
      && (m.count == 0 <==> m == Silence)
  {
    var m := BestMatch(input, rules);
    BestMatchIsFirstBest(input, rules);
    if m.count == 0 {
      forall j | 0 <= j < |rules| ensures Score(input, rules[j].keywords) == 0 { }
    } else {
      var i := m.at.value;
      assert Score(input, rules[i].keywords) > 0;
    }
  }

  /** Visiting one more keyword: it adds one exactly when its word occurs. */
  lemma ScoreStep(input: string, keywords: seq<KeywordEntry>, j: nat)
    requires j < |keywords|
    ensures Score(input, keywords[..j + 1])
         == Score(input, keywords[..j]) + if Contains(input, keywords[j].word) then 1 else 0
  {
    assert keywords[..j + 1][..j] == keywords[..j];
  }

  /** Visiting one more rule: it replaces the best so far exactly when it
      scores strictly more. */
  lemma BestMatchStep(input: string, rules: seq<Rule>, i: nat)
    requires i < |rules|
    ensures var best := BestMatch(input, rules[..i]);
      var count := Score(input, rules[i].keywords);
      BestMatch(input, rules[..i + 1])
      == if count > best.count then Match(count, rules[i].reply, Some(i)) else best
  {
    assert rules[..i + 1][..i] == rules[..i];
  }

  /** The inner `forEach` of `calculateBestMatch`: how many keyword entries
      of one rule occur in the input. */
  method CountMatches(input: string, keywords: seq<KeywordEntry>) returns (count: nat)
    ensures count == Score(input, keywords)
  {
    count := 0;
    var j := 0;
    while j < |keywords|
      invariant 0 <= j <= |keywords|
      invariant count == Score(input, keywords[..j])
    {
      ScoreStep(input, keywords, j);
      if Contains(input, keywords[j].word) {
        count := count + 1;
      }
      j := j + 1;
    }
    assert keywords[..j] == keywords;
  }

  /** `calculateBestMatch(input, mockData)`. */
  method CalculateBestMatch(input: string, mockData: seq<Rule>) returns (best: Match)
    ensures best == BestMatch(input, mockData)
    ensures IsFirstBest(input, mockData, best)
  {
    best := Silence;
    var i := 0;
    while i < |mockData|
      invariant 0 <= i <= |mockData|
      invariant best == BestMatch(input, mockData[..i])
    {
      var item := mockData[i];
      var count := CountMatches(input, item.keywords);
      BestMatchStep(input, mockData, i);
      if count > best.count {
        best := Match(count, item.reply, Some(i));
      }
      i := i + 1;
    }
    assert mockData[..i] == mockData;
    BestMatchIsFirstBest(input, mockData);
  }
}
