/** The server's maintenance of the rule store. `GET` returns the stored
    array and the save route overwrites it; the create, update and delete
    handlers read the whole store file, change the array they read, and write
    the whole array back. The file is modelled as its parsed contents, `None`
    when it does not exist. */
module Server {
  import opened Options
  import opened Text
  import opened Rules

  /** HTTP status of a handler's answer: 200, 400 or 404. */
  datatype Status = Ok | BadRequest | NotFound

  /** A request field that passes `!field`: present and not the empty string. */
  predicate Present(field: Option<string>)
    ensures Present(field) <==> field.Some? && |field.value| > 0
  {
    field.Some? && field.value != ""
  }

  /** What a handler reads: the stored array, or `[]` when there is no file. */
  function Load(file: Option<seq<Rule>>): (mocks: seq<Rule>)
    ensures file == Some(mocks) || (file == None && mocks == [])
  {
    if file.Some? then file.value else []
  }

  const Comma: set<char> := {','}

  /** `message.split(",").map(w => ({ word: w.trim(), weight: 1 }))`: one
      keyword per comma-separated field, empty fields kept, each trimmed, each
      with weight 1, each occurring in the message. */
  function ParseKeywords(message: string): (keywords: seq<KeywordEntry>)
    ensures |keywords| == CountIn(message, Comma) + 1
    ensures forall k | 0 <= k < |keywords| ::
      keywords[k] == KeywordEntry(Trim(Split(message, Comma)[k]), 1)
    ensures forall k | 0 <= k < |keywords| ::
      keywords[k].weight == 1
      && IsTrimmed(keywords[k].word, JsWhitespace)
      && NoneOf(keywords[k].word, Comma)
      && Contains(message, keywords[k].word)
  {
    var pieces := Split(message, Comma);
    SplitPiecesOccur(message, Comma);
    forall k | 0 <= k < |pieces|
      ensures IsTrimmed(Trim(pieces[k]), JsWhitespace)
      ensures NoneOf(Trim(pieces[k]), Comma) && Contains(message, Trim(pieces[k]))
    {
      TrimIsTrimmed(pieces[k]);
      TrimmedPieceOccurs(message, pieces[k]);
    }
    seq(|pieces|, k requires 0 <= k < |pieces| => KeywordEntry(Trim(pieces[k]), 1))
  }

  /** The words of a keyword list, in order. */
  function Words(keywords: seq<KeywordEntry>): (ws: seq<string>)
    ensures |ws| == |keywords| && forall k | 0 <= k < |ws| :: ws[k] == keywords[k].word
  {
    if keywords == [] then [] else [keywords[0].word] + Words(keywords[1..])
  }

  /** When no field of the message has whitespace around it, the parsed
      words joined back with the message's commas give the message. */
  lemma ParseKeywordsRoundTrip(message: string)
    requires forall k | 0 <= k < |Split(message, Comma)| :: IsTrimmed(Split(message, Comma)[k], JsWhitespace)
    ensures Join(Words(ParseKeywords(message)), SeparatorsOf(message, Comma)) == message
  {
    var keywords := ParseKeywords(message);
    var pieces := Split(message, Comma);
    var words := Words(keywords);
    forall k | 0 <= k < |pieces| ensures words[k] == pieces[k] {
      TrimOfTrimmed(pieces[k]);
    }
    assert words == pieces;
    JoinSplit(message, Comma);
  }

  /** Trimming a comma-free piece of the message keeps it comma-free and
      inside the message. */
  lemma TrimmedPieceOccurs(message: string, piece: string)
    requires NoneOf(piece, Comma) && Contains(message, piece)
    ensures NoneOf(Trim(piece), Comma) && Contains(message, Trim(piece))
  {
    var w := Trim(piece);
    var i :| 0 <= i <= |piece| - |w| && TrimmedAt(piece, w, i, JsWhitespace);
    var p :| 0 <= p <= |message| - |piece| && OccursAt(message, piece, p);
    OccursWithin(message, piece, w, p, i);
    OccursNoneOf(piece, w, i, Comma);
  }

  /** `mocks.splice(idx, 1)`: the rule at `i` removed, the others kept in
      their order. */
  function RemoveAt(s: seq<Rule>, i: nat): (r: seq<Rule>)
    requires i < |s|
    ensures |r| == |s| - 1
    ensures forall j | 0 <= j < i :: r[j] == s[j]
    ensures forall j | i <= j < |r| :: r[j] == s[j + 1]
    ensures multiset(r) + multiset{s[i]} == multiset(s)
  {
    assert s == s[..i] + [s[i]] + s[i + 1..];
    s[..i] + s[i + 1..]
  }

  class MockServer {
    /** `data/mock_responses.json`. */
    var file: Option<seq<Rule>>

    constructor (initial: Option<seq<Rule>>)
      ensures file == initial
    {
      file := initial;
    }

    /** `GET /api/mockResponses` (and `GET /mocks`): the stored array, or
        `[]` when there is no file. */
    method GetMockResponses() returns (body: seq<Rule>)
      ensures file.Some? ==> body == file.value
      ensures file.None? ==> body == []
    {
      if file.Some? {
        body := file.value;
      } else {
        body := [];
      }
    }

    /** `POST /api/saveMockResponse`: the request body overwrites the whole
        store. */
    method SaveMockResponse(body: seq<Rule>) returns (status: Status)
      modifies this
      ensures file == Some(body) && status == Ok
    {
      file := Some(body);
      status := Ok;
    }

    /** `POST /mocks`: 400 and no write without a message or a reply;
        otherwise exactly one rule, built from the comma-separated message,
        appended after the stored ones. */
    method PostMock(message: Option<string>, reply: Option<string>) returns (status: Status)
      modifies this
      ensures status == BadRequest <==> !Present(message) || !Present(reply)
      ensures status == BadRequest ==> file == old(file)
      ensures status == Ok ==>
        file == Some(Load(old(file)) + [Rule(ParseKeywords(message.value), reply.value)])
      ensures status != NotFound
    {
      if !Present(message) || !Present(reply) {
        return BadRequest;
      }
      var keywords := ParseKeywords(message.value);
      var mocks := Load(file);
      mocks := mocks + [Rule(keywords, reply.value)];
      file := Some(mocks);
      status := Ok;
    }

    /** `PUT /mocks/:idx`: 400 without keywords or a reply, 404 and no write
        when there is no rule at `idx`; otherwise the rule at `idx` is
        replaced and every other rule and the length are kept. */
    method PutMock(idx: nat, keywords: Option<seq<KeywordEntry>>, reply: Option<string>) returns (status: Status)
      modifies this
      ensures status == BadRequest <==> keywords.None? || !Present(reply)
      ensures status == NotFound <==> keywords.Some? && Present(reply) && idx >= |Load(old(file))|
      ensures status != Ok ==> file == old(file)
      ensures status == Ok ==>
        file == Some(Load(old(file))[idx := Rule(keywords.value, reply.value)])
    {
      if keywords.None? || !Present(reply) {
        return BadRequest;
      }
      var mocks := Load(file);
      if idx >= |mocks| {
        return NotFound;
      }
      mocks := mocks[idx := Rule(keywords.value, reply.value)];
      file := Some(mocks);
      status := Ok;
    }

    /** `DELETE /mocks/:idx`: 404 and no write when there is no rule at
        `idx`; otherwise exactly that rule is removed. */
    method DeleteMock(idx: nat) returns (status: Status)
      modifies this
      ensures status == NotFound <==> idx >= |Load(old(file))|
      ensures status == NotFound ==> file == old(file)
      ensures status == Ok ==> file == Some(RemoveAt(Load(old(file)), idx))
      ensures status != BadRequest
    {
      var mocks := Load(file);
      if idx >= |mocks| {
        return NotFound;
      }
      mocks := RemoveAt(mocks, idx);
      file := Some(mocks);
      status := Ok;
    }
  }

  /** Saving a store and reading it back gives the same sequence of rules,
      in the same order and with the same weights. */
  method SaveThenLoad(server: MockServer, store: seq<Rule>) returns (loaded: seq<Rule>)
    modifies server
    ensures loaded == store
  {
    var _ := server.SaveMockResponse(store);
    loaded := server.GetMockResponses();
  }
}
