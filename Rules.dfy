/** The response store's entities: a keyword with its weight, and a rule that
    maps a list of keywords to a canned patient reply. The store itself is an
    ordered sequence of rules; its order decides ties in matching. */
module Rules {
  import opened Text

  /** `{ word, weight }`. */
  datatype KeywordEntry = KeywordEntry(word: string, weight: int)

  /** `{ keywords, reply }`. */
  datatype Rule = Rule(keywords: seq<KeywordEntry>, reply: string)

  /** Some rule of the store has exactly this reply text
      (`mockResponses.some(m => m.reply === reply)`). */
  predicate HasReply(rules: seq<Rule>, reply: string)
    ensures HasReply(rules, reply) <==> exists r | r in rules :: r.reply == reply
  {
    exists j | 0 <= j < |rules| :: rules[j].reply == reply
  }

  /** No two rules of the store have the same reply text. */
  predicate DistinctReplies(rules: seq<Rule>) {
    forall i, j | 0 <= i < j < |rules| :: rules[i].reply != rules[j].reply
  }

  /** How many keyword entries of the list occur in the input: the inner
      `forEach` of the matcher. Entries are counted one by one, so a word
      listed twice counts twice. */
  function Score(input: string, keywords: seq<KeywordEntry>): (n: nat)
    ensures n <= |keywords|
    ensures n == |keywords| <==> forall k | 0 <= k < |keywords| :: Contains(input, keywords[k].word)
    ensures n == 0 <==> forall k | 0 <= k < |keywords| :: !Contains(input, keywords[k].word)
  {
    if keywords == [] then 0
    else
      Score(input, keywords[..|keywords| - 1])
      + (if Contains(input, keywords[|keywords| - 1].word) then 1 else 0)
  }

  /** The sum of the weights of a keyword list. */
  function TotalWeight(keywords: seq<KeywordEntry>): int {
    if keywords == [] then 0 else TotalWeight(keywords[..|keywords| - 1]) + keywords[|keywords| - 1].weight
  }
}
