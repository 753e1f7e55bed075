# Nurse–patient conversation simulator: matcher, learning and store maintenance

This project models the conversation engine of a browser-based training simulator for nursing students. A nurse types a message and a simulated psychiatric patient answers. The model covers:

- **Matcher** (`calculateBestMatch`). Each rule of the ordered response store is scored by how many of its keyword entries occur in the message. The first rule with the strictly highest score wins. With no score above zero the patient stays silent.
- **Reply policy.** A score of three or more gives the rule's canned reply. Two gives a fixed "ambiguous" line. One gives one of three avoidance lines. Zero goes to the generative model.
- **Learning.** On the generative path, keywords are extracted from the message (`extractKeywords`). The generated reply is appended as a new rule only if there are at least two keywords, the reply is longer than five UTF-16 units, and no rule already has that reply. On every turn, the keywords of the matched rule that occur in the message gain one weight (`learnFromInteraction`).
- **Session history.** A blank message is ignored. A turn appends the nurse's entry and then the patient's. Clearing the chat leaves only the opening line.
- **Greetings** as functions of the hour.
- **Server maintenance of the store file.** Read, overwrite, and create, update and delete by index.

Modules:

- `Text`: the JavaScript string operations used (`trim`, `length` in UTF-16 units, `includes`, `split` on a character class).
- `Rules`: keyword entries, rules and the score of a keyword list.
- `Matcher`, `Learning`, `Greeting`.
- `Chat`: class `ChatPage`. It holds the store and the history as fields that its methods update in place.
- `Server`: class `MockServer`. Its `file` field is the store file, `None` when the file does not exist.

Everything outside the program is a parameter:

- `Chat.Externals` carries a turn's outside outcomes: the two random picks, constrained to their lists' bounds; the generative call's result, as a candidate text or a failure; and whether the request that saves the store was rejected.
- The clock's hour and the formatted date at page load are parameters of the `ChatPage` constructor. The confirmation dialog's answer is the parameter of `ClearChat`; the current hour only affects the displayed reset line, which is not modelled.
- The server that receives the save is a `Server.MockServer` passed to `SendMessage`.

The matcher returns a reference to the matched rule's keyword array. Here that reference is the rule's position in the store. Between the match and the reinforcement the store is only appended to, so the position keeps naming the same rule.

Behaviour of the code worth knowing:

- **Clearing the chat.** The history gets the opening line computed when the page loaded. It is not recomputed from the current time. Only the displayed message uses the current time.
- **Reinforcement.** It runs after every turn whose match count is at least one, so exact, ambiguous and avoidant turns are all reinforced.
- **Store invariant.** Replies are kept distinct only by learning (`Learning.LearnedKeepsRepliesDistinct`). `POST /mocks` and `PUT /mocks/:idx` do not check for duplicates, and `POST /mocks` keeps empty keyword words.
- **Failed save.** After a rule is learned, the whole in-memory store, including weights raised by earlier reinforcement, is posted to `/api/saveMockResponse`. The client does not look at the answer's status, so a server error (500) still shows the normal reply. Only a request that is itself rejected, such as a network error, shows the anxious fallback line. The server's file is then unchanged, and the in-memory store keeps the new rule.

## Model

| member | source | states |
|---|---|---|
| `Text.Trim` | public/script.js:136 | the result is the input with a leading and a trailing run of whitespace removed, and is empty exactly when the input is all whitespace |
| `Text.TrimIsTrimmed` | public/script.js:136 | the result of `trim` neither starts nor ends with whitespace |
| `Text.TrimOfTrimmed` | public/script.js:136 | `trim` leaves a string that neither starts nor ends with whitespace unchanged |
| `Text.Contains` | public/script.js:313 | `includes`: a word occurs only in a string at least as long; the empty word occurs in every string, and every string occurs in itself |
| `Text.Utf16Length` | public/script.js:243 | JavaScript's `length` counts UTF-16 code units: between one and two per character, exactly one per character when all lie in the Basic Multilingual Plane, and two for a single character outside it (so a lone emoji is two units long) |
| `Text.Split` | public/script.js:242 | splitting on a character class gives one more piece than there are separators, and no piece contains a separator |
| `Text.JoinSplit` | server.js:101 | splitting loses nothing: re-inserting the separators between the pieces gives back the original string |
| `Text.SplitPiecesOccur` | public/script.js:242 | every piece of a split occurs as a substring of the split string |
| `Rules.HasReply` | public/script.js:213-215 | `some(r => r.reply === reply)` holds exactly when some rule of the store has that reply |
| `Rules.Score` | public/script.js:311-314 | the number of keyword entries whose word occurs in the input is at most the number of entries, equals it exactly when every word occurs, and is zero exactly when none occurs |
| `Matcher.BestMatch` | public/script.js:308-320 | the rule position the match refers to is a position of the store |
| `Matcher.BestMatchIsFirstBest` | public/script.js:308-320 | no rule scores more than the result; a zero count is the silent default; otherwise the result names the earliest rule with the highest score, with that rule's reply |
| `Matcher.FirstBestIsUnique` | public/script.js:315-317 | only one result satisfies "earliest rule with the strictly highest score", so the tie-break is determined |
| `Matcher.BestMatchCount` | public/script.js:309-319 | the count is the score of the matched rule's keyword list and at most its length; it is zero exactly when no keyword of any rule occurs in the message, and exactly then the result is the silent default `……（病人沉默不語）` with no matched keywords |
| `Matcher.CountMatches` | public/script.js:311-314 | the inner loop counts exactly the keyword entries whose word occurs in the input, the score of the list |
| `Matcher.CalculateBestMatch` | public/script.js:308-320 | the two nested loops compute the earliest highest-scoring rule, the same result as the reference definition |
| `Learning.LongTokens` | public/script.js:243 | a token is kept exactly when it is one of the input tokens and at least two UTF-16 units long; the result keeps the input order and keeps all tokens when all qualify |
| `Learning.LongTokensAppend` | public/script.js:243 | the filter distributes over concatenation: filtering two token lists one after the other gives the concatenation of their filtered lists |
| `Learning.ExtractKeywords` | public/script.js:240-246 | at most five keywords; they are the first qualifying tokens in their original order; each has weight 1, is at least two UTF-16 units long and contains no separator of `[\s,，。.!！？?]` |
| `Learning.ExtractedKeywordsOccur` | public/script.js:240-246 | every extracted keyword occurs in the message it was extracted from |
| `Learning.WorthLearning` | public/script.js:212-216 | the guard lets a reply through only when no rule of the store has that reply and it is at least three characters long (more than five UTF-16 units, at most two per character) |
| `Learning.Learned` | public/script.js:211-221 | learning only ever appends: the earlier rules are kept in place and at most one rule is added |
| `Learning.LearnedGrowsIff` | public/script.js:211-221 | the store grows by exactly one rule, appended after the unchanged earlier rules, if and only if there are at least two keywords, the reply is longer than five units and no rule has the same reply; otherwise the store is unchanged |
| `Learning.LearnedIsIdempotent` | public/script.js:213-216 | learning is idempotent, and once a reply is learned, learning it again from any message never adds a second copy |
| `Learning.LearnedKeepsRepliesDistinct` | public/script.js:213-221 | if no two rules share a reply before learning, none do after |
| `Learning.RepeatedMessageMatchesLearnedRule` | public/script.js:211-221 | after a silent turn whose reply was learned, sending the same message again matches the learned rule, with a count equal to the number of extracted keywords |
| `Learning.Bump` | public/script.js:328 | one keyword entry keeps its word and gains one weight exactly when its word occurs in the input; otherwise its weight is kept |
| `Learning.Reinforced` | public/script.js:325-329 | the store keeps its length; a silent match leaves it unchanged; every rule other than the matched one is kept, and the matched rule keeps its reply while its keyword list becomes the reinforced list (each entry +1 exactly when its word occurs) |
| `Learning.Reinforce` | public/script.js:327-329 | reinforcement keeps the list's length, and each entry gains one weight exactly when its word occurs in the input |
| `Learning.ReinforceAddsScore` | public/script.js:327-329 | reinforcement raises a keyword list's total weight by exactly its score, so the number of incremented entries is the match count |
| `Learning.ReinforcedChangesOneRule` | public/script.js:325-329 | reinforcement never lowers a weight and keeps every rule's words, reply and length; the reinforced rule's total weight rises by its score |
| `Learning.ReinforcedAfterMatch` | public/script.js:308-329 | after the matcher, the matched rule's total weight rises by exactly the match count, and a silent match changes nothing |
| `Greeting.GreetingH1` | public/script.js:47-52 | morning exactly for hours 6–11, afternoon exactly for 12–17, evening for every other hour |
| `Greeting.BotGreetingText` | public/script.js:55-63 | `您好` exactly for hours before 6 or from 22 on; the empty string at every other hour |
| `Chat.InitialBotReply` | public/script.js:83-84 | the opening line starts with the patient's introduction and the date lead, immediately followed by the formatted date |
| `Chat.CannedReply` | public/script.js:156-167 | a matched turn (count one or more) gets a canned reply, spoken by the patient; exactly a silent match gets none and goes on to the generative model |
| `Chat.ReplyPolicy` | public/script.js:156-167 | the turn goes to the generative model exactly when no keyword of any rule occurs; with a rule scoring three or more, the reply is the stored reply of the first highest-scoring rule; with best score two, the fixed ambiguous line whichever rule scored; with best score one, the chosen avoidance line |
| `Chat.FallbackReply` | public/script.js:197-204 | every fallback line is longer than five UTF-16 units, so it passes the length condition of learning |
| `Chat.PatientText` | public/script.js:196-205 | the patient's text is at least two units long; it is the trimmed generated text when that is long enough, otherwise the chosen fallback line |
| `Chat.Respond` | public/script.js:156-236 | a matched turn (count one or more) answers with the canned reply of the policy, keeps the store and sends nothing; a turn never shrinks the store; it sends a store to the server exactly when it learned a rule, and what it sends is the whole new store |
| `Chat.RespondChangesStoreOnlyByLearning` | public/script.js:168-236 | only a silent turn whose generative call answered changes the store, and then only by the guarded append; a failed call leaves the store and gives the anxious line; a failed save gives the anxious line but keeps the appended rule |
| `Chat.RespondStaysInCharacter` | public/script.js:156-236 | every reply of a turn, failures included, is spoken by the patient (starts with `💬 病人：`) |
| `Chat.ChatPage.constructor` | public/script.js:82-90 | on page load the history is exactly the opening line, which carries the load-time date and night greeting |
| `Chat.ChatPage.SendMessage` | public/script.js:135-255 | a message that trims to empty changes nothing; otherwise the history grows by exactly a nurse entry followed by a patient entry, and the new store is the learned store with the matched rule reinforced; the server's file becomes the learned store exactly when a rule was learned and the save request was not rejected, and is otherwise unchanged |
| `Chat.ChatPage.TakeTurn` | public/script.js:153-255 | for a non-blank message the history grows by exactly a nurse entry then a patient entry, the store becomes the learned store with the matched rule reinforced, and the server's file becomes the learned store exactly when a rule was learned and the save request was not rejected |
| `Chat.ChatPage.ReplyTo` | public/script.js:156-236 | the reply, the store after the reply step and the server write are those of `Chat.Respond`; the history is untouched |
| `Chat.ChatPage.ReplyGenerated` | public/script.js:194-235 | the store becomes the learned store for the trimmed (or substituted) text; when a rule was learned, the whole store is saved to the server unless the request is rejected, and then the reply is the anxious line instead of the patient's text |
| `Chat.ChatPage.LearnFromInteraction` | public/script.js:325-332 | the loop leaves the store equal to the reinforced store and does not touch the history |
| `Chat.ChatPage.ClearChat` | public/script.js:283-297 | once confirmed, the history is exactly the opening line; the store is untouched; without confirmation nothing changes |
| `Server.Present` | server.js:98 | a request field counts as given exactly when it is present and non-empty |
| `Server.Load` | server.js:102-104 | reading the store gives the stored array, or `[]` when no file exists |
| `Server.ParseKeywords` | server.js:101 | keyword `k` is the `k`-th comma-separated field, trimmed, with weight 1; there is one per field (comma count plus one, empty fields kept), comma-free and occurring in the message |
| `Server.ParseKeywordsRoundTrip` | server.js:101 | when no field has surrounding whitespace, joining the keyword words with commas gives back the message |
| `Server.RemoveAt` | server.js:197 | `splice(idx, 1)` shortens the store by one, keeps the earlier rules in place and shifts the later ones down, and removes exactly the rule at `idx` |
| `Server.MockServer.GetMockResponses` | server.js:23-35 | the answer is the stored array, or `[]` when no file exists |
| `Server.MockServer.SaveMockResponse` | server.js:40-50 | the request body overwrites the whole store |
| `Server.MockServer.PostMock` | server.js:96-109 | 400 and no write exactly when the message or the reply is missing or empty; otherwise exactly one rule, built from the comma-separated message, is appended after the stored ones |
| `Server.MockServer.PutMock` | server.js:163-183 | 400 without keywords or reply; 404 and no write exactly when no rule is at `idx`; otherwise only the rule at `idx` is replaced and the length is kept |
| `Server.MockServer.DeleteMock` | server.js:186-201 | 404 and no write exactly when no rule is at `idx`; otherwise exactly the rule at `idx` is removed |
| `Server.SaveThenLoad` | server.js:23-50 | saving a store and reading it back returns the same sequence of rules, order and weights included |

## Left out

- Page rendering is not modelled because it is UI only. This covers `appendMessage`, scrolling, the loading indicator, the `mock-status` badge and its floating-point scroll animation, the injected CSS, the page title text and the scenario box.
- Network calls are I/O and are parameters here. The generative call's outcome is `Chat.Generation`. Whether the save request was rejected is a boolean; a request that is not rejected reaches `Server.MockServer.SaveMockResponse`. The `/api/gemini` proxy on the server is not modelled.
- `loadMockResponses` (public/script.js:98-117) is network I/O, including its built-in one-rule default store for a failed fetch. `ChatPage`'s constructor takes the loaded store as a parameter instead.
- `localStorage` is not modelled: not the saved history, not the copy of the store written by `learnFromInteraction`. Neither is JSON (de)serialisation or file I/O. The store file is the abstract `MockServer.file`.
- The error paths of `GET /api/mockResponses` and `POST /api/saveMockResponse` are not modelled. They answer 500 on a file-system or JSON failure, which cannot arise in an abstract file.
- `Math.random()` and `new Date()` are replaced by parameters. The random picks are constrained to the bounds of their lists.
- Disabling the input while a turn is in flight is not modelled. It is UI backpressure, and each turn is modelled as one atomic step.
- `POST /api/saveMock` is not modelled because the client never calls it. It has the same effect as `POST /api/saveMockResponse` apart from the body wrapper.
- The later registrations of `GET /mocks` (server.js:124-142) and `POST /mocks` (server.js:145-160) are never reached, because the first registration of a route answers. Their bodies match the first ones, so `PostMock` and `GetMockResponses` stand for all of them.
- `Server.MockServer.PutMock`, `Server.MockServer.DeleteMock`: the route parameter is modelled as a decimal index. In the source, a non-numeric parameter is looked up as an array property; for example, `length` or an `Array.prototype` method name reaches `splice` as index 0. That is not modelled.
- `Server.MockServer.PutMock`, `Server.MockServer.PostMock`: request fields are modelled as strings and keyword lists. Other JSON values (numbers, objects in place of a keyword list) are not modelled.
- The extra rule-level `weight: 1` field that learning adds to a new rule is not modelled, because nothing reads it.
- Weights are unbounded integers. JavaScript numbers are exact only up to 2^53.
- Strings are sequences of Unicode scalar values, so lone surrogates cannot be represented. JavaScript lengths are counted in UTF-16 units by `Text.Utf16Length`.
