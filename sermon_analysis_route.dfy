/**
 * `POST` of src/app/api/sermon-analysis/route.ts: reads the uploaded file as
 * text, asks the backend for a main topic and verse list, repairs the reply
 * with the same cleaning as the questions route and returns the parsed
 * analysis unchanged when it has the expected shape.
 */
module SermonAnalysisRoute {
  import opened Wrappers
  import opened JsRuntime
  import opened HttpApi
  import ResponseCleaning

  const NoFile := "No file provided"
  const ReadFailure := "Failed to read file content"
  const InvalidFormat := "Invalid response format from AI"
  const ParseFailure := "Failed to parse AI response as JSON"

  /** The awaited `file.text()`: the text, or what it threw. */
  datatype ReadResult = ReadText(text: string) | ReadFailed(e: Exception)

  /**
   * `formData.get("file")`: no entry (`null`), a plain string field, or an
   * uploaded file together with the outcome of reading it.
   */
  datatype FormEntry = NoEntry | StringField(value: string) | FileField(read: ReadResult)

  /** `await request.formData()`: the body was not form data, or its `file` entry. */
  datatype FormRequest = FormUnreadable(e: Exception) | Form(file: FormEntry)

  /** `!file` is false: a file, or a non-empty string. */
  predicate IsPresent(entry: FormEntry)
    ensures IsPresent(entry) <==> !entry.NoEntry? && entry != StringField("")
  {
    entry.FileField? || (entry.StringField? && entry.value != "")
  }

  /**
   * `await file.text()` on a present entry. A string has no `text` method, so
   * calling it throws inside the read's `try`.
   */
  function ReadEntry(entry: FormEntry): (r: ReadResult)
    requires IsPresent(entry)
    ensures entry.FileField? ==> r == entry.read
    ensures entry.StringField? ==> r.ReadFailed?
    ensures r.ReadText? ==> entry == FileField(r)
  {
    match entry
    case FileField(read) => read
    case StringField(_) => ReadFailed(ErrorObject("file.text is not a function"))
  }

  /**
   * The shape the route accepts: a truthy `mainTopic` and an array `verses`,
   * which only an object holding both keys can have.
   */
  predicate IsAnalysis(value: Json)
    ensures IsAnalysis(value) <==>
              && value.JObject? && "mainTopic" in value.fields && "verses" in value.fields
              && Truthy(Some(value.fields["mainTopic"])) && value.fields["verses"].JArray?
  {
    Truthy(Property(value, "mainTopic")) && IsArray(Property(value, "verses"))
  }

  /**
   * The answer to a parse outcome. Reading a field of a `null` result throws
   * inside the same `try` as the parse, so it is reported as a parse failure.
   */
  function Classify(parsed: Option<Json>): (r: Response)
    ensures r.status == 200 || r.status == 500
    ensures r.status == 200 <==> parsed.Some? && IsAnalysis(parsed.value)
    ensures r.status == 200 ==> r.body == parsed.value
    ensures parsed.None? || parsed == Some(JNull) ==> r == ErrorResponse(500, ParseFailure)
    ensures parsed.Some? && parsed.value != JNull && !IsAnalysis(parsed.value) ==>
              r == ErrorResponse(500, InvalidFormat)
  {
    if parsed.None? || parsed.value.JNull? then ErrorResponse(500, ParseFailure)
    else
      var analysis := parsed.value;
      var verses := Property(analysis, "verses");
      if !Truthy(Property(analysis, "mainTopic")) || !Truthy(verses) || !IsArray(verses) then
        ErrorResponse(500, InvalidFormat)
      else
        Response(200, analysis)
  }

  /**
   * The whole handler: no file is a 400 before anything is read or asked; a
   * failed read is a 500 before the backend is asked; from there on
   * `AnswerFromReply` decides, with the same cleaning as the questions route.
   */
  function Post(request: FormRequest, reply: BackendReply, parse: string -> Option<Json>): (h: Handled)
    ensures h.backendCalled <==> request.Form? && IsPresent(request.file) && ReadEntry(request.file).ReadText?
    ensures h.response.status == 400 <==> request.Form? && !IsPresent(request.file)
    ensures h.response.status == 400 ==> h.response == ErrorResponse(400, NoFile)
    ensures request.Form? && IsPresent(request.file) && ReadEntry(request.file).ReadFailed? ==>
              h.response == ErrorResponse(500, ReadFailure)
    ensures h.backendCalled ==> h.response == AnswerFromReply(reply, parse, Classify)
    ensures request.FormUnreadable? ==> h.response == ErrorResponse(500, CaughtMessage(request.e))
  {
    match request
    case FormUnreadable(e) => Handled(ErrorResponse(500, CaughtMessage(e)), false)
    case Form(entry) =>
      if !IsPresent(entry) then Handled(ErrorResponse(400, NoFile), false)
      else
        match ReadEntry(entry)
        case ReadFailed(_) => Handled(ErrorResponse(500, ReadFailure), false)
        case ReadText(_) => Handled(AnswerFromReply(reply, parse, Classify), true)
  }

  /**
   * An accepted analysis is returned as parsed, extra fields included, and
   * whatever the verses array holds.
   */
  lemma AcceptedAnalysisUnchanged(request: FormRequest, text: string, parse: string -> Option<Json>,
                                  fields: map<string, Json>)
    requires request.Form? && request.file.FileField? && request.file.read.ReadText?
    requires parse(ResponseCleaning.Clean(text)) == Some(JObject(fields))
    requires IsAnalysis(JObject(fields))
    ensures Post(request, Message([TextBlock(text)]), parse).response == Response(200, JObject(fields))
  {
    var parsed := parse(ResponseCleaning.Clean(text));
    assert FirstText([TextBlock(text)]) == Some(text);
    assert AnswerFromReply(Message([TextBlock(text)]), parse, Classify) == Classify(parsed);
  }
}
