/**
 * Properties of the controller model: when the extraction returns the
 * candidate text and when it falls back to the body, which elements it
 * consults, how the API key is chosen, and how the outcomes divide.
 */
module OcrProcessProperties {
  import opened Wrappers
  import opened GeminiJson
  import opened OcrProcess

  // ---------------------------------------------------------------------
  // Extraction
  // ---------------------------------------------------------------------

  /** The accessor walk, with its exceptions and `false` results, finds a
      string exactly when the optional chain ends at a JSON string. */
  lemma WalkMatchesOptionalChain(root: Json, s: string)
    ensures FirstPartText(root) == Found(Some(s)) <==> CandidateString(root) == Some(s)
  {
  }

  /** A body that does not parse is returned unchanged. */
  lemma UnparsableBodyReturned(parse: string -> Option<Json>, body: string)
    requires parse(body).None?
    ensures ExtractTextFromGeminiResponse(parse, body) == body
  {
  }

  /** A JSON string at the end of the path is returned as it is, the empty
      string included: only a null falls back to the body. */
  lemma StringTextReturned(parse: string -> Option<Json>, body: string, root: Json, s: string)
    requires parse(body) == Some(root)
    requires TextPath(root) == Some(JStr(s))
    ensures ExtractTextFromGeminiResponse(parse, body) == s
  {
  }

  /** Every way the path can fail gives back the body: a root that is not an
      object, `candidates` missing, not an array, or empty, `content` or
      `parts` missing (or not objects/arrays), `parts` empty, the first part
      without `text`, and `text` that is null or not a string. */
  lemma FallbackCases(parse: string -> Option<Json>, body: string, root: Json)
    requires parse(body) == Some(root)
    ensures var r := ExtractTextFromGeminiResponse(parse, body);
            var candidates := Member(root, "candidates");
            var first := if candidates.Some? then Head(candidates.value) else None;
            var content := if first.Some? then Member(first.value, "content") else None;
            var parts := if content.Some? then Member(content.value, "parts") else None;
            && (!root.JObj? ==> r == body)
            && (candidates.None? ==> r == body)
            && (candidates.Some? && !candidates.value.JArr? ==> r == body)
            && (candidates == Some(JArr([])) ==> r == body)
            && (first.Some? && content.None? ==> r == body)
            && (content.Some? && parts.None? ==> r == body)
            && (parts == Some(JArr([])) ==> r == body)
            && (TextPath(root).None? ==> r == body)
            && (TextPath(root) == Some(JNull) ==> r == body)
            && (TextPath(root).Some? && !TextPath(root).value.JStr? ==> r == body)
  {
  }

  /** `{"candidates":[]}` comes back as it is. */
  lemma EmptyCandidatesExample(parse: string -> Option<Json>)
    requires parse("{\"candidates\":[]}") == Some(JObj([("candidates", JArr([]))]))
    ensures ExtractTextFromGeminiResponse(parse, "{\"candidates\":[]}") == "{\"candidates\":[]}"
  {
  }

  /** An envelope with one candidate whose parts are `parts`. */
  function Envelope(parts: seq<Json>, otherCandidates: seq<Json>): Json {
    JObj([("candidates", JArr([JObj([("content", JObj([("parts", JArr(parts))]))])] + otherCandidates))])
  }

  /** An empty `text` is returned as the empty string, not replaced by the body. */
  lemma EmptyTextReturned(parse: string -> Option<Json>, body: string)
    requires parse(body) == Some(Envelope([JObj([("text", JStr(""))])], []))
    ensures ExtractTextFromGeminiResponse(parse, body) == ""
  {
  }

  /** The `parts` element reached through the first candidate's `content`. */
  function FirstCandidateParts(root: Json): Option<Json> {
    var candidates :- Member(root, "candidates");
    var firstCandidate :- Head(candidates);
    var content :- Member(firstCandidate, "content");
    Member(content, "parts")
  }

  /** Candidates after the first never affect the result, whatever other
      members the two documents hold. */
  lemma OnlyFirstCandidate(root1: Json, root2: Json, first: Json, rest1: seq<Json>, rest2: seq<Json>)
    requires Member(root1, "candidates") == Some(JArr([first] + rest1))
    requires Member(root2, "candidates") == Some(JArr([first] + rest2))
    ensures CandidateString(root1) == CandidateString(root2)
  {
  }

  /** The result is decided by the first part alone: its `text` when that
      is a JSON string, nothing otherwise. Later parts, and the first
      candidate's and content's other members, never matter; a `text` in a
      later part is ignored when the first part has none. */
  lemma OnlyFirstPart(root: Json, first: Json, rest: seq<Json>)
    requires FirstCandidateParts(root) == Some(JArr([first] + rest))
    ensures CandidateString(root) == (match Member(first, "text") case Some(JStr(s)) => Some(s) case _ => None)
    ensures Member(first, "text").None? ==> CandidateString(root).None?
  {
  }

  /** Two documents whose first candidate's parts share their first element
      carry the same candidate text. */
  lemma OnlyFirstPartConsulted(root1: Json, root2: Json, first: Json, rest1: seq<Json>, rest2: seq<Json>)
    requires FirstCandidateParts(root1) == Some(JArr([first] + rest1))
    requires FirstCandidateParts(root2) == Some(JArr([first] + rest2))
    ensures CandidateString(root1) == CandidateString(root2)
  {
    OnlyFirstPart(root1, first, rest1);
    OnlyFirstPart(root2, first, rest2);
  }

  // ---------------------------------------------------------------------
  // ImageToJson
  // ---------------------------------------------------------------------

  predicate HasImage(imageLength: Option<nat>) {
    imageLength.Some? && imageLength.value > 0
  }

  /** A non-null environment variable decides the key on its own: the
      configuration entry then never matters, even when the variable is
      empty or white space and the entry holds a usable key. */
  lemma EnvKeyWins(imageLength: Option<nat>, env: string, config1: Option<string>, config2: Option<string>,
                   upstream: Upstream, parse: string -> Option<Json>)
    ensures ImageToJson(imageLength, Some(env), config1, upstream, parse)
         == ImageToJson(imageLength, Some(env), config2, upstream, parse)
    ensures HasImage(imageLength) && IsNullOrWhiteSpace(Some(env)) ==>
              ImageToJson(imageLength, Some(env), config1, upstream, parse)
              == Handled(ErrorReply(500, KeyNotConfigured, None), None)
  {
  }

  /** With the environment variable unset, a usable configuration entry is
      the key sent, unless the header collection refuses it. */
  lemma ConfigKeyWhenEnvUnset(imageLength: Option<nat>, config: string, upstream: Upstream, parse: string -> Option<Json>)
    requires HasImage(imageLength) && !IsNullOrWhiteSpace(Some(config))
    ensures ImageToJson(imageLength, None, Some(config), upstream, parse).sentKey
         == if HeaderValueRejected(config) then None else Some(config)
  {
  }

  /** Once the image and the key pass, exactly one of four outcomes
      happens, each fixed by the upstream result alone. */
  lemma OutcomeClassification(imageLength: Option<nat>, envKey: Option<string>, configKey: Option<string>,
                              upstream: Upstream, parse: string -> Option<Json>)
    requires HasImage(imageLength) && !IsNullOrWhiteSpace(ResolveApiKey(envKey, configKey))
    ensures var h := ImageToJson(imageLength, envKey, configKey, upstream, parse);
            HeaderValueRejected(ResolveApiKey(envKey, configKey).value) ==>
              h == Handled(UnhandledException, None)
    ensures var h := ImageToJson(imageLength, envKey, configKey, upstream, parse);
            !HeaderValueRejected(ResolveApiKey(envKey, configKey).value) ==>
            && h.sentKey == ResolveApiKey(envKey, configKey)
            && (h.response.JsonContent? ==> h.response.text == ExtractTextFromGeminiResponse(parse, upstream.body))
            && (upstream.TransportFailure? <==> h.response.ErrorReply? && h.response.error == CallFailed)
            && (upstream.TransportFailure? ==> h.response == ErrorReply(500, CallFailed, Some(upstream.message)))
            && (upstream.Responded? && !IsSuccessStatusCode(upstream.status) <==>
                  h.response.ErrorReply? && h.response.error == UpstreamFailed)
            && (upstream.Responded? && !IsSuccessStatusCode(upstream.status) ==>
                  h.response == ErrorReply(upstream.status, UpstreamFailed, Some(upstream.body)))
            && (h.response.JsonContent? <==>
                  upstream.Responded? && IsSuccessStatusCode(upstream.status)
                  && parse(ExtractTextFromGeminiResponse(parse, upstream.body)).Some?)
            && (h.response.RawReply? <==>
                  upstream.Responded? && IsSuccessStatusCode(upstream.status)
                  && parse(ExtractTextFromGeminiResponse(parse, upstream.body)).None?)
  {
  }

  /** A key with a line break passes the blank check but is refused by the
      header collection: no call is made and the action fails with an
      unhandled exception. */
  lemma LineBreakInKeyFails(imageLength: Option<nat>, configKey: Option<string>, upstream: Upstream, parse: string -> Option<Json>)
    requires HasImage(imageLength)
    ensures ImageToJson(imageLength, Some("abc\n"), configKey, upstream, parse) == Handled(UnhandledException, None)
  {
    var key := "abc\n";
    assert key[0] == 'a' && !IsDotNetWhiteSpace(key[0]);
    assert key[3] == '\n';
    assert HeaderValueRejected(key);
  }

  /** When the envelope parses as JSON but carries no candidate text, the
      whole envelope is returned as if it were the extraction result. */
  lemma EnvelopeReturnedWithoutCandidate(imageLength: Option<nat>, envKey: Option<string>, configKey: Option<string>,
                                         status: int, body: string, parse: string -> Option<Json>, root: Json)
    requires HasImage(imageLength) && !IsNullOrWhiteSpace(ResolveApiKey(envKey, configKey))
    requires !HeaderValueRejected(ResolveApiKey(envKey, configKey).value)
    requires IsSuccessStatusCode(status)
    requires parse(body) == Some(root) && CandidateString(root).None?
    ensures ImageToJson(imageLength, envKey, configKey, Responded(status, body), parse).response == JsonContent(body)
  {
  }

  /** The reply is a success status exactly when the call was made and the
      upstream status was a success. */
  lemma SuccessIffUpstreamSuccess(imageLength: Option<nat>, envKey: Option<string>, configKey: Option<string>,
                                  upstream: Upstream, parse: string -> Option<Json>)
    ensures var h := ImageToJson(imageLength, envKey, configKey, upstream, parse);
            IsSuccessStatusCode(h.response.Status()) <==>
              h.sentKey.Some? && upstream.Responded? && IsSuccessStatusCode(upstream.status)
  {
  }

  /** End to end: a successful envelope whose candidate text is valid JSON
      is returned verbatim as the response body. */
  lemma CandidateJsonReturnedVerbatim(imageLength: Option<nat>, envKey: Option<string>, configKey: Option<string>,
                                      status: int, body: string, parse: string -> Option<Json>, root: Json, text: string)
    requires HasImage(imageLength) && !IsNullOrWhiteSpace(ResolveApiKey(envKey, configKey))
    requires !HeaderValueRejected(ResolveApiKey(envKey, configKey).value)
    requires IsSuccessStatusCode(status)
    requires parse(body) == Some(root) && CandidateString(root) == Some(text)
    requires parse(text).Some?
    ensures ImageToJson(imageLength, envKey, configKey, Responded(status, body), parse).response == JsonContent(text)
  {
  }

  /** The degraded reply carries the extracted text, which is not valid
      JSON, and the whole upstream body; when the body itself did not parse
      the two coincide. */
  lemma RawReplyShape(imageLength: Option<nat>, envKey: Option<string>, configKey: Option<string>,
                      upstream: Upstream, parse: string -> Option<Json>)
    ensures var h := ImageToJson(imageLength, envKey, configKey, upstream, parse);
            h.response.RawReply? ==>
              && upstream.Responded?
              && h.response.fullResponse == upstream.body
              && h.response.raw == ExtractTextFromGeminiResponse(parse, upstream.body)
              && parse(h.response.raw).None?
              && (parse(upstream.body).None? ==> h.response.raw == upstream.body)
  {
  }
}
