/**
 * The backend controller: the candidate-text extraction from the Gemini
 * response envelope, and `ImageToJson` reduced to a decision over its
 * inputs. Parsing is a parameter (`parse` yields `None` when
 * `JsonDocument.Parse` would throw); the HTTP exchange is an input value.
 */
module OcrProcess {
  import opened Wrappers
  import opened GeminiJson

  // ---------------------------------------------------------------------
  // ExtractTextFromGeminiResponse
  // ---------------------------------------------------------------------

  /** The guarded walk to `candidates[0].content.parts[0].text` and its
      `GetString()`, with each accessor's own outcome: an `if` whose
      condition fails gives `Absent`, an accessor applied to the wrong
      kind of element gives `Threw`. */
  function FirstPartText(root: Json): Access<Option<string>> {
    var candidates :- TryGetProperty(root, "candidates");
    var count :- GetArrayLength(candidates);
    if count == 0 then Absent
    else
      var firstCandidate :- ElementAt(candidates, 0);
      var content :- TryGetProperty(firstCandidate, "content");
      var parts :- TryGetProperty(content, "parts");
      var partCount :- GetArrayLength(parts);
      if partCount == 0 then Absent
      else
        var firstPart :- ElementAt(parts, 0);
        var textElement :- TryGetProperty(firstPart, "text");
        GetString(textElement)
  }

  /** The same path as an optional chain: each step is absent unless the
      element has the right kind and the key or first element exists. */
  function Member(e: Json, name: string): Option<Json> {
    if e.JObj? then LastMember(e.members, name) else None
  }

  function Head(e: Json): Option<Json> {
    if e.JArr? && |e.elems| > 0 then Some(e.elems[0]) else None
  }

  function TextPath(root: Json): Option<Json> {
    var candidates :- Member(root, "candidates");
    var firstCandidate :- Head(candidates);
    var content :- Member(firstCandidate, "content");
    var parts :- Member(content, "parts");
    var firstPart :- Head(parts);
    Member(firstPart, "text")
  }

  /** The candidate text a document carries: the path ends at a JSON string. */
  function CandidateString(root: Json): Option<string> {
    match TextPath(root)
    case Some(JStr(s)) => Some(s)
    case _ => None
  }

  /** `ExtractTextFromGeminiResponse(responseBody)`: the string at
      `candidates[0].content.parts[0].text` when the body parses and the
      path ends at a JSON string (the empty string included); otherwise
      the body itself. */
  function ExtractTextFromGeminiResponse(parse: string -> Option<Json>, responseBody: string): (r: string)
    ensures parse(responseBody).Some? && CandidateString(parse(responseBody).value).Some? ==>
              r == CandidateString(parse(responseBody).value).value
    ensures parse(responseBody).None? || CandidateString(parse(responseBody).value).None? ==>
              r == responseBody
  {
    match parse(responseBody)
    case None => responseBody
    case Some(doc) =>
      match FirstPartText(doc)
      case Found(Some(text)) => text
      case Found(None) => responseBody
      case Absent => responseBody
      case Threw => responseBody
  }

  // ---------------------------------------------------------------------
  // ImageToJson
  // ---------------------------------------------------------------------

  const ImageRequired := "Image file is required."
  const KeyNotConfigured := "Gemini API key is not configured. Set GEMINI_API_KEY or GoogleAI:ApiKey."
  const CallFailed := "Failed to call Gemini API"
  const UpstreamFailed := "Gemini API error"

  /** What the outbound call produced: an exception from sending or reading,
      or a status code and the body text. */
  datatype Upstream = TransportFailure(message: string) | Responded(status: int, body: string)

  /** The response shapes of the action. */
  datatype Response =
    | ErrorReply(status: int, error: string, details: Option<string>)
    | JsonContent(text: string)
    | RawReply(raw: string, fullResponse: string)
    | UnhandledException
  {
    /** The status code sent; an exception that escapes the action is
        answered by the framework with 500. */
    function Status(): int {
      if ErrorReply? then status else if UnhandledException? then 500 else 200
    }
  }

  /** The response, and the API key sent to Gemini if the call was made. */
  datatype Handled = Handled(response: Response, sentKey: Option<string>)

  /** `char.IsWhiteSpace`: U+0009 to U+000D, U+0085 and the Unicode space,
      line and paragraph separators. Unlike JavaScript's trim it includes
      U+0085 and excludes U+FEFF. */
  predicate IsDotNetWhiteSpace(c: char) {
    var n := c as int;
    || (0x09 <= n <= 0x0D)
    || n == 0x20 || n == 0x85 || n == 0xA0 || n == 0x1680
    || (0x2000 <= n <= 0x200A)
    || n == 0x2028 || n == 0x2029 || n == 0x202F || n == 0x205F || n == 0x3000
  }

  /** `string.IsNullOrWhiteSpace`. */
  predicate IsNullOrWhiteSpace(s: Option<string>) {
    s.None? || forall i :: 0 <= i < |s.value| ==> IsDotNetWhiteSpace(s.value[i])
  }

  /** `HttpResponseMessage.IsSuccessStatusCode`. */
  predicate IsSuccessStatusCode(status: int) {
    200 <= status <= 299
  }

  /** `HttpHeaders.Add` refuses a value of a header it has no parser for
      (such as `x-goog-api-key`) when the value contains CR or LF, with a
      `FormatException`. */
  predicate HeaderValueRejected(value: string) {
    exists i :: 0 <= i < |value| && (value[i] == '\r' || value[i] == '\n')
  }

  /** `env ?? config`. */
  function ResolveApiKey(envKey: Option<string>, configKey: Option<string>): Option<string> {
    if envKey.Some? then envKey else configKey
  }

  /** The action: reject a missing or empty image, resolve the key (the
      environment variable, else the configuration entry), reject a blank
      key, add the key header (outside any `try`, so a refused value ends
      the action with an unhandled exception before any call), then
      classify the upstream outcome. `imageLength` is `None` when
      no file was bound. */
  function ImageToJson(imageLength: Option<nat>, envKey: Option<string>, configKey: Option<string>,
                       upstream: Upstream, parse: string -> Option<Json>): (h: Handled)
    ensures imageLength.None? || imageLength == Some(0) ==>
              h == Handled(ErrorReply(400, ImageRequired, None), None)
    ensures h.sentKey.Some? ==>
              && imageLength.Some? && imageLength.value > 0
              && h.sentKey == ResolveApiKey(envKey, configKey)
              && !IsNullOrWhiteSpace(h.sentKey)
    ensures imageLength.Some? && imageLength.value > 0 && h.sentKey.None? ==>
              || h.response == ErrorReply(500, KeyNotConfigured, None)
              || h.response == UnhandledException
    ensures imageLength.Some? && imageLength.value > 0 && IsNullOrWhiteSpace(ResolveApiKey(envKey, configKey)) ==>
              h == Handled(ErrorReply(500, KeyNotConfigured, None), None)
    ensures h.sentKey.Some? ==> !HeaderValueRejected(h.sentKey.value)
    ensures h.response == UnhandledException <==>
              && imageLength.Some? && imageLength.value > 0
              && !IsNullOrWhiteSpace(ResolveApiKey(envKey, configKey))
              && HeaderValueRejected(ResolveApiKey(envKey, configKey).value)
  {
    if imageLength.None? || imageLength.value == 0 then
      Handled(ErrorReply(400, ImageRequired, None), None)
    else
      var apiKey := ResolveApiKey(envKey, configKey);
      if IsNullOrWhiteSpace(apiKey) then
        Handled(ErrorReply(500, KeyNotConfigured, None), None)
      else if HeaderValueRejected(apiKey.value) then
        Handled(UnhandledException, None)
      else
        var response :=
          match upstream
          case TransportFailure(message) => ErrorReply(500, CallFailed, Some(message))
          case Responded(status, body) =>
            if !IsSuccessStatusCode(status) then ErrorReply(status, UpstreamFailed, Some(body))
            else
              var modelText := ExtractTextFromGeminiResponse(parse, body);
              if parse(modelText).Some? then JsonContent(modelText)
              else RawReply(modelText, body);
        Handled(response, apiKey)
  }
}
