/**
 * `POST` of src/app/api/questions/route.ts: checks the two request
 * parameters, asks the backend once (no retry) for discussion questions,
 * repairs its text reply and returns the parsed `questions` array as it is.
 */
module QuestionsRoute {
  import opened Wrappers
  import opened JsRuntime
  import opened HttpApi
  import ResponseCleaning

  const MissingParameters := "Missing required parameters"
  const ParseFailure := "Failed to parse Claude response as JSON"
  const InvalidFormat := "Invalid response format"

  /** `await request.json()`: the body was not JSON, or the value it holds. */
  datatype RequestBody = Unreadable(e: Exception) | Body(value: Json)

  /**
   * `!verses || !questions` is false: only an object holding both keys can
   * pass, and an empty array passes as any array does.
   */
  predicate HasParameters(value: Json)
    ensures HasParameters(value) <==>
              && value.JObject? && "verses" in value.fields && "questions" in value.fields
              && Truthy(Some(value.fields["verses"])) && Truthy(Some(value.fields["questions"]))
    ensures (&& value.JObject? && "verses" in value.fields && "questions" in value.fields
             && value.fields["verses"].JArray? && value.fields["questions"].JArray?) ==> HasParameters(value)
  {
    Truthy(Property(value, "verses")) && Truthy(Property(value, "questions"))
  }

  /**
   * The answer to a parse outcome. A `null` result throws when `.questions` is
   * read, outside the inner `try`, so the outer `catch` answers with the
   * engine's message.
   */
  function Classify(parsed: Option<Json>): (r: Response)
    ensures r.status == 200 || r.status == 500
    ensures r.status == 200 <==> parsed.Some? && IsArray(Property(parsed.value, "questions"))
    ensures r.status == 200 ==> r.body == JObject(map["questions" := Property(parsed.value, "questions").value])
    ensures parsed.None? ==> r == ErrorResponse(500, ParseFailure)
    ensures parsed == Some(JNull) ==> r == ErrorResponse(500, CaughtMessage(NullReadError("questions")))
    ensures parsed.Some? && parsed.value != JNull && !IsArray(Property(parsed.value, "questions")) ==>
              r == ErrorResponse(500, InvalidFormat)
  {
    if parsed.None? then ErrorResponse(500, ParseFailure)
    else if parsed.value.JNull? then ErrorResponse(500, CaughtMessage(NullReadError("questions")))
    else
      var questions := Property(parsed.value, "questions");
      if !Truthy(questions) || !IsArray(questions) then ErrorResponse(500, InvalidFormat)
      else Response(200, JObject(map["questions" := questions.value]))
  }

  /**
   * The whole handler. Destructuring a `null` body throws; a falsy `verses`
   * or `questions` is a 400 before the backend is asked; from there on
   * `AnswerFromReply` decides.
   */
  function Post(request: RequestBody, reply: BackendReply, parse: string -> Option<Json>): (h: Handled)
    ensures h.backendCalled <==> request.Body? && request.value != JNull && HasParameters(request.value)
    ensures h.response.status == 400 <==>
              request.Body? && request.value != JNull && !HasParameters(request.value)
    ensures h.response.status == 400 ==> h.response == ErrorResponse(400, MissingParameters)
    ensures h.backendCalled ==> h.response == AnswerFromReply(reply, parse, Classify)
    ensures !h.backendCalled && h.response.status != 400 ==> h.response.status == 500
    ensures request.Unreadable? ==> h.response == ErrorResponse(500, CaughtMessage(request.e))
    ensures request == Body(JNull) ==>
              h.response == ErrorResponse(500, CaughtMessage(NullDestructureError("verses")))
  {
    match request
    case Unreadable(e) => Handled(ErrorResponse(500, CaughtMessage(e)), false)
    case Body(JNull) => Handled(ErrorResponse(500, CaughtMessage(NullDestructureError("verses"))), false)
    case Body(value) =>
      if !HasParameters(value) then Handled(ErrorResponse(400, MissingParameters), false)
      else Handled(AnswerFromReply(reply, parse, Classify), true)
  }

  /** `questions: 0` is falsy: the request is refused as missing a parameter. */
  lemma ZeroQuestionsIsMissing(verses: Json, reply: BackendReply, parse: string -> Option<Json>)
    ensures var h := Post(Body(JObject(map["verses" := verses, "questions" := JNumber(0.0)])), reply, parse);
            h.response == ErrorResponse(400, MissingParameters) && !h.backendCalled
  {
  }

  /**
   * The request the route is written for, a passage reference and a count,
   * reaches the backend and is answered from its reply.
   */
  lemma ReferenceAndCountReachBackend(verses: string, count: real, reply: BackendReply,
                                      parse: string -> Option<Json>)
    requires verses != "" && count != 0.0
    ensures var h := Post(Body(JObject(map["verses" := JString(verses), "questions" := JNumber(count)])), reply, parse);
            h.backendCalled && h.response == AnswerFromReply(reply, parse, Classify)
  {
  }

  /**
   * On success the answer carries the parsed array itself: entries are not
   * coerced to strings, unwrapped from `{question}` objects or cut to the
   * requested count.
   */
  lemma SuccessReturnsParsedArray(request: RequestBody, text: string, parse: string -> Option<Json>,
                                  fields: map<string, Json>, items: seq<Json>)
    requires request.Body? && request.value != JNull && HasParameters(request.value)
    requires parse(ResponseCleaning.Clean(text)) == Some(JObject(fields))
    requires "questions" in fields && fields["questions"] == JArray(items)
    ensures Post(request, Message([TextBlock(text)]), parse).response
         == Response(200, JObject(map["questions" := JArray(items)]))
  {
    var parsed := Some(JObject(fields));
    assert Property(JObject(fields), "questions") == Some(JArray(items));
    var answer := Classify(parsed);
    assert answer.status == 200;
    assert FirstText([TextBlock(text)]) == Some(text);
    assert AnswerFromReply(Message([TextBlock(text)]), parse, Classify) == answer;
  }
}
