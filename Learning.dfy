/** Online learning of the response store: keyword extraction from the
    nurse's message, the guarded append of a generated reply as a new rule,
    and the reinforcement of the keywords that made a rule match. */
module Learning {
  import opened Options
  import opened Text
  import opened Rules
  import opened Matcher

  // ---------------------------------------------------------------------------
  // extractKeywords
  // ---------------------------------------------------------------------------

  /** The class `[\s,，。.!！？?]` that `extractKeywords` splits on. */
  const KeywordSeparators: set<char> := JsWhitespace + {',', '，', '。', '.', '!', '！', '？', '?'}

  /** The most keywords one message yields (`.slice(0, 5)`). */
  const MaxKeywords: nat := 5

  /** A token long enough to be a keyword (`w.length >= 2`, in UTF-16 units). */
  predicate IsKeyword(w: string) {
    Utf16Length(w) >= 2
  }

  /** `.filter(w => w.length >= 2)`: the qualifying tokens, in order. */
  function LongTokens(tokens: seq<string>): (r: seq<string>)
    ensures |r| <= |tokens|
    ensures forall k | 0 <= k < |r| :: IsKeyword(r[k]) && r[k] in tokens
    ensures (forall k | 0 <= k < |tokens| :: IsKeyword(tokens[k])) ==> r == tokens
    ensures forall t :: t in r <==> t in tokens && IsKeyword(t)
  {
    if tokens == [] then []
    else (if IsKeyword(tokens[0]) then [tokens[0]] else []) + LongTokens(tokens[1..])
  }

  /** The filter works token by token, so it keeps the qualifying tokens in
      their original order: filtering a concatenation concatenates the
      filtered parts. */
  lemma {:induction false} LongTokensAppend(a: seq<string>, b: seq<string>)
    ensures LongTokens(a + b) == LongTokens(a) + LongTokens(b)
  {
    if a == [] {
      assert a + b == b;
    } else {
      assert (a + b)[0] == a[0] && (a + b)[1..] == a[1..] + b;
      LongTokensAppend(a[1..], b);
    }
  }

  /** The qualifying tokens of a message, before the cap of five. */
  function Candidates(text: string): seq<string> {
    LongTokens(Split(text, KeywordSeparators))
  }

  /** `extractKeywords(text)`: the first five qualifying tokens, in their
      original order, each with weight 1. */
  function ExtractKeywords(text: string): (r: seq<KeywordEntry>)
    ensures |r| <= MaxKeywords && |r| <= |Candidates(text)|
    ensures |r| < MaxKeywords ==> |r| == |Candidates(text)|
    ensures forall k | 0 <= k < |r| :: r[k] == KeywordEntry(Candidates(text)[k], 1)
    ensures forall k | 0 <= k < |r| ::
      IsKeyword(r[k].word) && NoneOf(r[k].word, KeywordSeparators)
  {
    var tokens := Candidates(text);
    var kept := if |tokens| <= MaxKeywords then tokens else tokens[..MaxKeywords];
    assert forall k | 0 <= k < |kept| :: kept[k] in Split(text, KeywordSeparators);
    seq(|kept|, k requires 0 <= k < |kept| => KeywordEntry(kept[k], 1))
  }

  /** Every extracted keyword occurs in the message it was extracted from. */
  lemma ExtractedKeywordsOccur(text: string)
    ensures forall k | 0 <= k < |ExtractKeywords(text)| :: Contains(text, ExtractKeywords(text)[k].word)
  {
    var pieces := Split(text, KeywordSeparators);
    SplitPiecesOccur(text, KeywordSeparators);
    forall k | 0 <= k < |ExtractKeywords(text)| ensures Contains(text, ExtractKeywords(text)[k].word) {
      var w := ExtractKeywords(text)[k].word;
      assert w in pieces;
      var p :| 0 <= p < |pieces| && pieces[p] == w;
    }
  }

  // ---------------------------------------------------------------------------
  // guarded append of a learned rule
  // ---------------------------------------------------------------------------

  /** The three conditions under which a generated reply is learned: at least
      two keywords, a reply longer than five UTF-16 units, and no rule with
      the same reply already in the store. */
  predicate WorthLearning(rules: seq<Rule>, keywords: seq<KeywordEntry>, reply: string)
    ensures WorthLearning(rules, keywords, reply) ==>
      |reply| >= 3 && forall j | 0 <= j < |rules| :: rules[j].reply != reply
  {
    |keywords| >= 2 && Utf16Length(reply) > 5 && !HasReply(rules, reply)
  }

  /** The store after the learning step of one generative turn. */
  function Learned(rules: seq<Rule>, keywords: seq<KeywordEntry>, reply: string): (r: seq<Rule>)
    ensures |rules| <= |r| <= |rules| + 1 && r[..|rules|] == rules
  {
    if WorthLearning(rules, keywords, reply) then rules + [Rule(keywords, reply)] else rules
  }

  /** The store grows by exactly one rule, appended after the unchanged
      earlier rules, if and only if all three conditions hold; otherwise it is
      unchanged. Afterwards some rule has the reply whenever it is long
      enough and there were enough keywords. */
  lemma LearnedGrowsIff(rules: seq<Rule>, keywords: seq<KeywordEntry>, reply: string)
    ensures var r := Learned(rules, keywords, reply);
      (|r| == |rules| + 1 <==> WorthLearning(rules, keywords, reply))
      && r[..|rules|] == rules
      && (|r| == |rules| + 1 ==> r[|rules|] == Rule(keywords, reply))
      && (!WorthLearning(rules, keywords, reply) ==> r == rules)
      && (|keywords| >= 2 && Utf16Length(reply) > 5 ==> HasReply(r, reply))
  {
    var r := Learned(rules, keywords, reply);
    if WorthLearning(rules, keywords, reply) {
      assert r[|rules|].reply == reply;
    }
  }

  /** Learning is idempotent, and once a reply has been learned, learning it
      again from any message never adds a second copy. */
  lemma LearnedIsIdempotent(rules: seq<Rule>, keywords: seq<KeywordEntry>, again: seq<KeywordEntry>, reply: string)
    ensures Learned(Learned(rules, keywords, reply), keywords, reply) == Learned(rules, keywords, reply)
    ensures |Learned(rules, keywords, reply)| > |rules| ==>
      Learned(Learned(rules, keywords, reply), again, reply) == Learned(rules, keywords, reply)
  {
    var once := Learned(rules, keywords, reply);
    if WorthLearning(rules, keywords, reply) {
      assert once[|rules|].reply == reply;
    }
  }

  /** Learning keeps the replies of the store pairwise distinct. */
  lemma LearnedKeepsRepliesDistinct(rules: seq<Rule>, keywords: seq<KeywordEntry>, reply: string)
    requires DistinctReplies(rules)
    ensures DistinctReplies(Learned(rules, keywords, reply))
  {
    var r := Learned(rules, keywords, reply);
    if WorthLearning(rules, keywords, reply) {
      forall i, j | 0 <= i < j < |r| ensures r[i].reply != r[j].reply {
        if j == |rules| {
          assert r[i] == rules[i];
        } else {
          assert r[i] == rules[i] && r[j] == rules[j];
        }
      }
    }
  }

  /** After a silent turn whose generated reply was learned, the same message
      matches the learned rule, with one point for each extracted keyword. */
  lemma RepeatedMessageMatchesLearnedRule(message: string, rules: seq<Rule>, reply: string)
    requires BestMatch(message, rules).count == 0
    requires WorthLearning(rules, ExtractKeywords(message), reply)
    ensures BestMatch(message, Learned(rules, ExtractKeywords(message), reply))
         == Match(|ExtractKeywords(message)|, reply, Some(|rules|))
  {
    var keywords := ExtractKeywords(message);
    var r := Learned(rules, keywords, reply);
    ExtractedKeywordsOccur(message);
    assert r[..|r| - 1] == rules;
  }

  // ---------------------------------------------------------------------------
  // learnFromInteraction
  // ---------------------------------------------------------------------------

  /** One keyword after reinforcement: one more weight when its word occurs
      in the input. */
  function Bump(input: string, k: KeywordEntry): (b: KeywordEntry)
    ensures b.word == k.word && k.weight <= b.weight <= k.weight + 1
    ensures b.weight == k.weight + 1 <==> Contains(input, k.word)
  {
    if Contains(input, k.word) then k.(weight := k.weight + 1) else k
  }

  /** A keyword list after reinforcement, entry by entry. */
  function Reinforce(input: string, keywords: seq<KeywordEntry>): (r: seq<KeywordEntry>)
    ensures |r| == |keywords|
    ensures forall k | 0 <= k < |r| :: r[k] == Bump(input, keywords[k])
  {
    if keywords == [] then []
    else Reinforce(input, keywords[..|keywords| - 1]) + [Bump(input, keywords[|keywords| - 1])]
  }

  /** The store after `learnFromInteraction(input, m)`: the rule the match
      refers to has its keywords reinforced; a silent match changes nothing. */
  function Reinforced(rules: seq<Rule>, input: string, m: Match): (r: seq<Rule>)
    requires m.at.Some? ==> m.at.value < |rules|
    ensures |r| == |rules|
    ensures m.at.None? ==> r == rules
    ensures forall j | 0 <= j < |rules| && Some(j) != m.at :: r[j] == rules[j]
    ensures m.at.Some? ==> r[m.at.value].reply == rules[m.at.value].reply
    ensures m.at.Some? ==> r[m.at.value].keywords == Reinforce(input, rules[m.at.value].keywords)
  {
    match m.at
    case None => rules
    case Some(i) => rules[i := rules[i].(keywords := Reinforce(input, rules[i].keywords))]
  }

  /** Reinforcement raises a keyword list's total weight by exactly its score:
      each contained entry gains one, the others nothing. */
  lemma {:induction false} ReinforceAddsScore(input: string, keywords: seq<KeywordEntry>)
    ensures TotalWeight(Reinforce(input, keywords)) == TotalWeight(keywords) + Score(input, keywords)
  {
    if keywords != [] {
      var init := keywords[..|keywords| - 1];
      ReinforceAddsScore(input, init);
      assert Reinforce(input, keywords)[..|keywords| - 1] == Reinforce(input, init);
    }
  }

  /** Beyond what `Reinforced` states: no weight decreases, words, replies
      and lengths of every rule are kept, and the reinforced rule's total
      weight rises by its score. */
  lemma ReinforcedChangesOneRule(input: string, rules: seq<Rule>, m: Match)
    requires m.at.Some? ==> m.at.value < |rules|
    ensures var r := Reinforced(rules, input, m);
      (forall j | 0 <= j < |rules| ::
            r[j].reply == rules[j].reply && |r[j].keywords| == |rules[j].keywords|
            && forall k | 0 <= k < |r[j].keywords| ::
                 r[j].keywords[k].word == rules[j].keywords[k].word
                 && r[j].keywords[k].weight >= rules[j].keywords[k].weight)
      && (m.at.Some? ==>
            TotalWeight(r[m.at.value].keywords)
            == TotalWeight(rules[m.at.value].keywords) + Score(input, rules[m.at.value].keywords))
  {
    if m.at.Some? {
      ReinforceAddsScore(input, rules[m.at.value].keywords);
    }
  }

  /** Reinforcing after the matcher: every keyword of the matched rule whose
      word occurs in the input gains exactly one, so the rule's total weight
      rises by the match count; a silent match changes nothing. */
  lemma ReinforcedAfterMatch(input: string, rules: seq<Rule>)
    ensures var m := BestMatch(input, rules);
      (m.at.Some? ==> m.at.value < |rules|)
      && var r := Reinforced(rules, input, m);
      (m.count == 0 ==> r == rules)
      && (m.at.Some? ==>
            TotalWeight(r[m.at.value].keywords) == TotalWeight(rules[m.at.value].keywords) + m.count)
  {
    var m := BestMatch(input, rules);
    BestMatchIsFirstBest(input, rules);
    ReinforcedChangesOneRule(input, rules, m);
  }
}
