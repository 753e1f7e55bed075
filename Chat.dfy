/** The chat page: one nurse turn (`sendMessage`), the reply policy it
    applies to the match count, the generative fallback with its learning
    step, reinforcement (`learnFromInteraction`) and the reset of the
    conversation. The page's state is the response store and the turn
    history, which the methods of `ChatPage` update in place. */
module Chat {
  import opened Options
  import opened Text
  import opened Rules
  import opened Matcher
  import opened Learning
  import opened Greeting
  import Server

  datatype Role = User | Assistant

  /** `{ role, text }`. */
  datatype Turn = Turn(role: Role, text: string)

  /** What the call to the generative model came back with: the candidate's
      text, or the empty string when the response carries none; or a failure
      that raised an exception (transport error, unreadable response). */
  datatype Generation = Generated(candidate: string) | Failed

  /** The outcomes of everything a turn cannot decide by itself: the two
      random picks, the generative call, and whether the request that saves
      the store to the server was rejected (a network error; the client does
      not look at the status of an answered request). */
  datatype Externals = Externals(avoidPick: nat, generation: Generation, fallbackPick: nat, saveFails: bool)
  {
    /** `Math.floor(Math.random() * list.length)` is an index of the list. */
    predicate Valid() {
      avoidPick < |AvoidReplies| && fallbackPick < |FallbackReplies|
    }
  }

  const PatientPrefix: string := "💬 病人："
  const NursePrefix: string := "👩‍⚕️ 你："

  const AmbiguousReply: string := PatientPrefix + "你...你是在暗示什麼嗎？我聽不懂。"

  const AvoidReplies: seq<string> := [
    "（低頭，沉默不語...）",
    "（焦慮地環顧四周，沒有理會你...）",
    "（突然看向窗外，說：『今天天氣真好...』）"
  ]

  /** Substitutes for a generated text shorter than two UTF-16 units. */
  const FallbackReplies: seq<string> := [
    "你...你剛剛是不是也聽到了那個聲音？",
    "我不知道...他們都不喜歡我。",
    "你為什麼老是問這種問題？",
    "我不想講這個，好嗎？"
  ]

  /** The reply of a generative turn that raised an exception. */
  const AnxiousReply: string := PatientPrefix + "（焦慮地環顧四周）不要問了，好嗎？我什麼都沒做…真的！"

  /** The opening of the first line, before the date. */
  const OpeningLead: string := "💬我是病人。【🌅 今天是 "

  /** `initialBotReply`, fixed when the page loads from the date and hour of
      that moment: the opening, then the date, then the night greeting. */
  function InitialBotReply(formattedDate: string, hour: int): (r: string)
    ensures OpeningLead <= r
    ensures OccursAt(r, formattedDate, |OpeningLead|)
  {
    var r := OpeningLead + formattedDate + " " + BotGreetingText(hour) + "】。\n（病人低頭不語，沒有眼神接觸...）";
    assert r[|OpeningLead|..|OpeningLead| + |formattedDate|] == formattedDate;
    r
  }

  // ---------------------------------------------------------------------------
  // reply policy
  // ---------------------------------------------------------------------------

  /** The reply the policy gives without the generative model, or `None` when
      the turn goes to the generative fallback. */
  function CannedReply(m: Match, avoidPick: nat): (r: Option<string>)
    requires avoidPick < |AvoidReplies|
    ensures r.None? <==> m.count == 0
    ensures r.Some? ==> PatientPrefix <= r.value
  {
    if m.count >= 3 then Some(PatientPrefix + m.reply)
    else if m.count == 2 then Some(AmbiguousReply)
    else if m.count == 1 then Some(PatientPrefix + AvoidReplies[avoidPick])
    else None
  }

  /** The policy as a function of the store: the turn goes to the generative
      model exactly when no keyword of any rule occurs in the message; when
      some rule scores three or more, the reply is the stored reply of the
      first highest-scoring rule; when the best score is two, the reply is the
      fixed ambiguous line whichever rule scored; when it is one, an avoidance
      line. */
  lemma ReplyPolicy(message: string, rules: seq<Rule>, avoidPick: nat)
    requires avoidPick < |AvoidReplies|
    ensures var m := BestMatch(message, rules);
      var r := CannedReply(m, avoidPick);
      (r.None? <==> forall j | 0 <= j < |rules| :: Score(message, rules[j].keywords) == 0)
      && ((exists j | 0 <= j < |rules| :: Score(message, rules[j].keywords) >= 3) ==>
            m.at.Some? && m.at.value < |rules|
            && Score(message, rules[m.at.value].keywords) >= 3
            && (forall j | 0 <= j < m.at.value :: Score(message, rules[j].keywords) < m.count)
            && r == Some(PatientPrefix + rules[m.at.value].reply))
      && ((exists j | 0 <= j < |rules| :: Score(message, rules[j].keywords) == 2)
          && (forall j | 0 <= j < |rules| :: Score(message, rules[j].keywords) <= 2) ==>
            r == Some(AmbiguousReply))
      && ((exists j | 0 <= j < |rules| :: Score(message, rules[j].keywords) == 1)
          && (forall j | 0 <= j < |rules| :: Score(message, rules[j].keywords) <= 1) ==>
            r == Some(PatientPrefix + AvoidReplies[avoidPick]))
  {
    var m := BestMatch(message, rules);
    BestMatchIsFirstBest(message, rules);
    if m.count == 0 {
      assert forall j | 0 <= j < |rules| :: Score(message, rules[j].keywords) == 0;
    } else {
      assert Score(message, rules[m.at.value].keywords) == m.count;
    }
  }

  // ---------------------------------------------------------------------------
  // the generative fallback
  // ---------------------------------------------------------------------------

  /** `fallbackReplies[pick]`. Every fallback line is longer than five UTF-16
      units, so it passes the length condition of learning. */
  function FallbackReply(pick: nat): (t: string)
    requires pick < |FallbackReplies|
    ensures Utf16Length(t) > 5
  {
    var line := FallbackReplies[pick];
    assert |line| > 5;
    line
  }

  /** The patient's text from the trimmed generated text: that text, or the
      chosen fallback line when it is shorter than two UTF-16 units. */
  function PatientText(generatedText: string, fallbackPick: nat): (t: string)
    requires fallbackPick < |FallbackReplies|
    ensures Utf16Length(t) >= 2
    ensures Utf16Length(generatedText) >= 2 ==> t == generatedText
    ensures Utf16Length(generatedText) < 2 ==> t == FallbackReplies[fallbackPick]
  {
    if generatedText == [] || Utf16Length(generatedText) < 2 then FallbackReply(fallbackPick)
    else generatedText
  }

  /** The reply shown for a turn, the store after it (before reinforcement),
      and the store the turn sends to the server, if any. */
  datatype Outcome = Outcome(reply: string, store: seq<Rule>, saved: Option<seq<Rule>>)

  /** One turn's reply and learning step, given the match of the message. A
      turn sends the whole in-memory store to the server exactly when it
      learned a rule, so weights raised by earlier reinforcement reach the
      server only with such a save. */
  function Respond(message: string, rules: seq<Rule>, m: Match, env: Externals): (o: Outcome)
    requires env.Valid()
    ensures |o.store| >= |rules|
    ensures o.saved.Some? <==> |o.store| > |rules|
    ensures o.saved.Some? ==> o.saved.value == o.store
    ensures m.count > 0 ==> o == Outcome(CannedReply(m, env.avoidPick).value, rules, None)
  {
    match CannedReply(m, env.avoidPick)
    case Some(text) => Outcome(text, rules, None)
    case None =>
      match env.generation
      case Failed => Outcome(AnxiousReply, rules, None)
      case Generated(candidate) =>
        var text := PatientText(Trim(candidate), env.fallbackPick);
        var store := Learned(rules, ExtractKeywords(message), text);
        var grew := |store| > |rules|;
        Outcome(if grew && env.saveFails then AnxiousReply else PatientPrefix + text, store,
                if grew then Some(store) else None)
  }

  /** Only a silent turn whose generative call answered can change the store,
      and then only by appending the learned rule; a failed call leaves the
      store alone and answers with the anxious line; a failed write of the
      store also answers with the anxious line but keeps the new rule. */
  lemma RespondChangesStoreOnlyByLearning(message: string, rules: seq<Rule>, m: Match, env: Externals)
    requires env.Valid()
    ensures var o := Respond(message, rules, m, env);
      (m.count > 0 || env.generation.Failed? ==> o.store == rules)
      && (env.generation.Failed? && m.count == 0 ==> o.reply == AnxiousReply)
      && (m.count == 0 && env.generation.Generated? ==>
            var text := PatientText(Trim(env.generation.candidate), env.fallbackPick);
            var learnt := WorthLearning(rules, ExtractKeywords(message), text);
            o.store == (if learnt then rules + [Rule(ExtractKeywords(message), text)] else rules)
            && o.reply == (if learnt && env.saveFails then AnxiousReply else PatientPrefix + text))
  {
    var o := Respond(message, rules, m, env);
    if m.count > 0 {
      assert CannedReply(m, env.avoidPick).Some?;
    } else {
      assert CannedReply(m, env.avoidPick) == None;
      match env.generation
      case Failed =>
      case Generated(candidate) =>
        var text := PatientText(Trim(candidate), env.fallbackPick);
        assert o.store == Learned(rules, ExtractKeywords(message), text);
    }
  }

  /** Whatever happens, the patient stays in character: every reply of a turn
      is spoken by the patient. */
  lemma RespondStaysInCharacter(message: string, rules: seq<Rule>, m: Match, env: Externals)
    requires env.Valid()
    ensures PatientPrefix <= Respond(message, rules, m, env).reply
  {
  }

  // ---------------------------------------------------------------------------
  // the page
  // ---------------------------------------------------------------------------

  class ChatPage {
    /** `mockResponses`: the response store as loaded from the server. */
    var mockResponses: seq<Rule>
    /** `chatHistory`: the conversation, oldest turn first. */
    var chatHistory: seq<Turn>
    const initialBotReply: string

    /** Page load: the opening line replaces any history saved before. The
        store is the one the server returned. */
    constructor (formattedDate: string, hour: int, loaded: seq<Rule>)
      ensures initialBotReply == InitialBotReply(formattedDate, hour)
      ensures chatHistory == [Turn(Assistant, initialBotReply)]
      ensures mockResponses == loaded
    {
      initialBotReply := InitialBotReply(formattedDate, hour);
      chatHistory := [Turn(Assistant, InitialBotReply(formattedDate, hour))];
      mockResponses := loaded;
    }

    /** `sendMessage()`: a blank message does nothing; otherwise the turn
        appends the nurse's entry and then the patient's, and the store is the
        learned store with the matched rule reinforced. */
    method SendMessage(input: string, env: Externals, server: Server.MockServer)
      requires env.Valid()
      modifies this, server
      ensures var message := Trim(input);
        if message == [] then
          chatHistory == old(chatHistory) && mockResponses == old(mockResponses)
          && server.file == old(server.file)
        else
          var m := BestMatch(message, old(mockResponses));
          var o := Respond(message, old(mockResponses), m, env);
          chatHistory == old(chatHistory) + [Turn(User, NursePrefix + message), Turn(Assistant, o.reply)]
          && mockResponses == Reinforced(o.store, message, m)
          && server.file == (if o.saved.Some? && !env.saveFails then o.saved else old(server.file))
    {
      var message := Trim(input);
      if message == [] {
        return;
      }
      TakeTurn(message, env, server);
    }

    /** The body of `sendMessage()` past the blank-message guard: match,
        reply, record both entries, reinforce. */
    method TakeTurn(message: string, env: Externals, server: Server.MockServer)
      requires env.Valid()
      modifies this, server
      ensures var m := BestMatch(message, old(mockResponses));
        var o := Respond(message, old(mockResponses), m, env);
        chatHistory == old(chatHistory) + [Turn(User, NursePrefix + message), Turn(Assistant, o.reply)]
        && mockResponses == Reinforced(o.store, message, m)
        && server.file == (if o.saved.Some? && !env.saveFails then o.saved else old(server.file))
    {
      ghost var rules := mockResponses;
      var bestMatch := CalculateBestMatch(message, mockResponses);
      ghost var o := Respond(message, rules, bestMatch, env);
      var botReplyText := ReplyTo(message, bestMatch, env, server);
      assert mockResponses == o.store && botReplyText == o.reply;
      chatHistory := chatHistory + [Turn(User, NursePrefix + message), Turn(Assistant, botReplyText)];
      LearnFromInteraction(message, bestMatch);
    }

    /** The reply step of `sendMessage()`: a canned reply chosen by the match
        count, or the generative path, which may learn a new rule. */
    method ReplyTo(message: string, bestMatch: Match, env: Externals, server: Server.MockServer)
      returns (botReplyText: string)
      requires env.Valid()
      modifies this, server
      ensures var o := Respond(message, old(mockResponses), bestMatch, env);
        botReplyText == o.reply && mockResponses == o.store
        && server.file == (if o.saved.Some? && !env.saveFails then o.saved else old(server.file))
      ensures chatHistory == old(chatHistory)
    {
      if bestMatch.count >= 3 {
        botReplyText := PatientPrefix + bestMatch.reply;
      } else if bestMatch.count == 2 {
        botReplyText := AmbiguousReply;
      } else if bestMatch.count == 1 {
        botReplyText := PatientPrefix + AvoidReplies[env.avoidPick];
      } else {
        match env.generation
        case Failed =>
          botReplyText := AnxiousReply;
        case Generated(candidate) =>
          botReplyText := ReplyGenerated(message, candidate, env, server);
      }
    }

    /** The `try` block of `sendMessage()` once the generative call answered:
        the patient's text, the guarded append of the learned rule, and the
        save of the whole store to the server. A rejected save request leaves
        the server's file as it was and turns the reply into the anxious line. */
    method ReplyGenerated(message: string, candidate: string, env: Externals, server: Server.MockServer)
      returns (botReplyText: string)
      requires env.Valid()
      modifies this, server
      ensures var generatedText := PatientText(Trim(candidate), env.fallbackPick);
        var store := Learned(old(mockResponses), ExtractKeywords(message), generatedText);
        var grew := |store| > |old(mockResponses)|;
        mockResponses == store
        && botReplyText == (if grew && env.saveFails then AnxiousReply else PatientPrefix + generatedText)
        && server.file == (if grew && !env.saveFails then Some(store) else old(server.file))
      ensures chatHistory == old(chatHistory)
    {
      var generatedText := Trim(candidate);
      generatedText := PatientText(generatedText, env.fallbackPick);
      botReplyText := PatientPrefix + generatedText;
      var newKeywords := ExtractKeywords(message);
      if |newKeywords| >= 2 && Utf16Length(generatedText) > 5 {
        var isDuplicate := HasReply(mockResponses, generatedText);
        if !isDuplicate {
          mockResponses := mockResponses + [Rule(newKeywords, generatedText)];
          if env.saveFails {
            botReplyText := AnxiousReply;
          } else {
            var _ := server.SaveMockResponse(mockResponses);
          }
        }
      }
    }

    /** `learnFromInteraction(input, matchResult)`: every keyword of the
        matched rule whose word occurs in the input gains one weight. */
    method LearnFromInteraction(input: string, matchResult: Match)
      requires matchResult.at.Some? ==> matchResult.at.value < |mockResponses|
      modifies this
      ensures mockResponses == Reinforced(old(mockResponses), input, matchResult)
      ensures chatHistory == old(chatHistory)
    {
      if matchResult.at.None? {
        return;
      }
      var i := matchResult.at.value;
      var keywords := mockResponses[i].keywords;
      var reinforced: seq<KeywordEntry> := [];
      var j := 0;
      while j < |keywords|
        invariant 0 <= j <= |keywords|
        invariant reinforced == Reinforce(input, keywords[..j])
      {
        var k := keywords[j];
        if Contains(input, k.word) {
          k := k.(weight := k.weight + 1);
        }
        assert keywords[..j + 1][..j] == keywords[..j];
        reinforced := reinforced + [k];
        j := j + 1;
      }
      assert keywords[..j] == keywords;
      mockResponses := mockResponses[i := mockResponses[i].(keywords := reinforced)];
    }

    /** The clear button: once confirmed, the history is the page's opening
        line alone. The store is untouched. */
    method ClearChat(confirmed: bool)
      modifies this
      ensures confirmed ==> chatHistory == [Turn(Assistant, initialBotReply)]
      ensures !confirmed ==> chatHistory == old(chatHistory)
      ensures mockResponses == old(mockResponses)
    {
      if !confirmed {
        return;
      }
      chatHistory := [];
      chatHistory := chatHistory + [Turn(Assistant, initialBotReply)];
    }
  }
}
