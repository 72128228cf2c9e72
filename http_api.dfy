/**
 * What the two API routes share: the response they build with
 * `NextResponse.json`, the reply of the language-model backend (whose call
 * itself is outside the model) and the search for its first text block.
 */
module HttpApi {
  import opened Wrappers
  import opened JsRuntime
  import opened ResponseCleaning

  /** `NextResponse.json(body, { status })`; the default status is 200. */
  datatype Response = Response(status: nat, body: Json)

  function ErrorResponse(status: nat, message: string): Response {
    Response(status, JObject(map["error" := JString(message)]))
  }

  /** A content block of the backend's message: text, or any other kind. */
  datatype ContentBlock = TextBlock(text: string) | OtherBlock

  /** The awaited backend call: it threw, or it returned a message. */
  datatype BackendReply = Threw(e: Exception) | Message(content: seq<ContentBlock>)

  /** What a route handler answers, and whether it reached the backend call. */
  datatype Handled = Handled(response: Response, backendCalled: bool)

  /**
   * `content.find(block => block.type === "text")`: the text of the first text
   * block, or `None` when there is none.
   */
  function FirstText(content: seq<ContentBlock>): (r: Option<string>)
    ensures r.None? <==> forall i :: 0 <= i < |content| ==> !content[i].TextBlock?
    ensures r.Some? ==> exists i :: 0 <= i < |content| && content[i] == TextBlock(r.value)
                                   && forall k :: 0 <= k < i ==> !content[k].TextBlock?
  {
    if content == [] then None
    else if content[0].TextBlock? then Some(content[0].text)
    else
      var r := FirstText(content[1..]);
      assert r.Some? ==> exists i :: 0 <= i < |content| - 1 && content[1..][i] == TextBlock(r.value)
                                    && forall k :: 0 <= k < i ==> !content[1..][k].TextBlock?;
      r
  }

  const NoTextContent := "No text content received from Claude"

  /**
   * The part of both handlers after the backend call: a thrown call goes to the
   * outer `catch`; a message without a text block is a 500; otherwise the first
   * text block is cleaned, handed to `parse` (JSON.parse, abstract here) and the
   * route's own `classify` decides the answer.
   */
  function AnswerFromReply(reply: BackendReply, parse: string -> Option<Json>,
                           classify: Option<Json> -> Response): (r: Response)
    ensures reply.Threw? ==> r == ErrorResponse(500, CaughtMessage(reply.e))
    ensures reply.Message? && FirstText(reply.content).None? ==> r == ErrorResponse(500, NoTextContent)
    ensures reply.Message? && FirstText(reply.content).Some? ==>
              r == classify(parse(Clean(FirstText(reply.content).value)))
  {
    match reply
    case Threw(e) => ErrorResponse(500, CaughtMessage(e))
    case Message(content) =>
      match FirstText(content)
      case None => ErrorResponse(500, NoTextContent)
      case Some(text) => classify(parse(Clean(text)))
  }

  /**
   * Whatever a route's classification, a reply that wraps an object in
   * whitespace, a code fence or prose (nothing that opens a `{` before it or
   * closes a `}` after it) is answered exactly as the bare object would be.
   */
  lemma {:induction false} WrappedReplyAnswersAsBare(p: string, b: string, q: string,
                                    parse: string -> Option<Json>, classify: Option<Json> -> Response)
    requires IsObjectShaped(b) && '{' !in p && '}' !in q
    ensures AnswerFromReply(Message([TextBlock(p + b + q)]), parse, classify)
         == AnswerFromReply(Message([TextBlock(b)]), parse, classify)
  {
    CleanRecoversEmbedded(p, b, q);
    CleanIdentity(b);
  }
}
