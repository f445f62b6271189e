/**
 * The client of the Gemini `generateContent` endpoint: its error taxonomy,
 * the request it sends for an image, the key store it reads the API key
 * from, and the decision it takes on the HTTP status and parsed JSON body
 * it receives. The network round trip itself is a parameter.
 */
module Gemini {
  import opened Wrappers
  import opened Json
  import opened Text
  import Base64

  // ---------------------------------------------------------------------
  // Errors

  datatype GeminiError = InvalidResponse | ApiError(message: string) | NoLatexFound

  const ApiErrorPrefix: string := "API Error: "

  /** `GeminiError.errorDescription`: the user-facing message of each case. The
      message of an API error is the service's own message behind a fixed
      prefix, which no other case starts with. */
  function ErrorDescription(e: GeminiError): (d: string)
    ensures e.ApiError? <==> |d| >= |ApiErrorPrefix| && d[..|ApiErrorPrefix|] == ApiErrorPrefix
    ensures e.ApiError? ==> d[|ApiErrorPrefix|..] == e.message
  {
    match e
    case InvalidResponse =>
      var d := "Invalid response from Gemini API";
      assert d[0] != ApiErrorPrefix[0];
      d
    case ApiError(message) => ApiErrorPrefix + message
    case NoLatexFound =>
      var d := "No LaTeX content found in the image";
      assert d[0] != ApiErrorPrefix[0];
      d
  }

  /** Distinct errors are described differently: the message shown to the
      user identifies the error. */
  lemma ErrorDescriptionInjective(a: GeminiError, b: GeminiError)
    requires ErrorDescription(a) == ErrorDescription(b)
    ensures a == b
  {
  }

  // ---------------------------------------------------------------------
  // The request

  const BaseUrl: string :=
    "https://generativelanguage.googleapis.com/v1beta/models/gemini-3-flash-preview:generateContent"

  /** The reply the prompt asks for when the image holds no mathematics. */
  const Sentinel: string := "NO_MATH_FOUND"

  /** The prompt up to the sentinel it ends with. */
  const PromptRules: string :=
    "Analyze this image and extract any mathematical equations, formulas, or expressions.\n"
    + "Convert them to LaTeX format.\n"
    + "\n"
    + "Rules:\n"
    + "- Return ONLY the LaTeX code, no explanations\n"
    + "- Use standard LaTeX math notation\n"
    + "- For inline math, don't wrap in $ symbols\n"
    + "- For display/block equations, don't wrap in $$ or \\[ \\]\n"
    + "- If there are multiple equations, separate them with newlines\n"
    + "- If no math content is found, return \""

  const Prompt: string := PromptRules + Sentinel + "\""

  const ImageMimeType: string := "image/png"

  /** Carried in the request as is; nothing here reasons about its value. */
  const Temperature: real := 0.1

  const MaxOutputTokens: nat := 2048

  /** The prompt names, in quotes at its very end, the sentinel that the
      decoder compares the reply with. */
  lemma PromptEndsWithSentinel()
    ensures |Prompt| > |Sentinel| + 1
    ensures Prompt[|Prompt| - |Sentinel| - 1..|Prompt| - 1] == Sentinel
  {
    SliceMiddle(PromptRules, Sentinel, "\"");
  }

  lemma SliceMiddle(a: string, b: string, c: string)
    ensures (a + b + c)[|a|..|a| + |b|] == b
  {
  }

  /** The JSON body of the request for `image` with instruction `prompt`:
      one `contents` entry with two parts, the first of them the prompt, and
      a `generationConfig` bounding the output to 2048 tokens. */
  function RequestBody(prompt: string, image: seq<Base64.byte>): Json {
    JObject(map[
      "contents" := JArray([
        JObject(map[
          "parts" := JArray([
            JObject(map["text" := JString(prompt)]),
            JObject(map["inline_data" := JObject(map[
              "mime_type" := JString(ImageMimeType),
              "data" := JString(Base64.Encode(image))])])])])]),
      "generationConfig" := JObject(map[
        "temperature" := JNumber(Temperature),
        "maxOutputTokens" := JNumber(MaxOutputTokens as real)])])
  }

  /** The parts of the request's single `contents` entry; None unless there
      is exactly one entry and its parts are objects. */
  function RequestParts(body: Json): Option<seq<Object>> {
    var o :- AsObject(body);
    var c :- Get(o, "contents");
    var contents :- AsObjectArray(c);
    if |contents| != 1 then None
    else
      var p :- Get(contents[0], "parts");
      AsObjectArray(p)
  }

  /** The instruction text a receiver reads from the first part. */
  function RequestPrompt(body: Json): Option<string> {
    var parts :- RequestParts(body);
    var first :- First(parts);
    var t :- Get(first, "text");
    AsString(t)
  }

  /** The image a receiver reads from the second, and last, part: a PNG
      whose base 64 data decodes. */
  function RequestImage(body: Json): Option<seq<Base64.byte>> {
    var parts :- RequestParts(body);
    if |parts| != 2 then None
    else
      var i :- Get(parts[1], "inline_data");
      var inline :- AsObject(i);
      var mime :- Get(inline, "mime_type");
      if mime != JString(ImageMimeType) then None
      else
        var d :- Get(inline, "data");
        var data :- AsString(d);
        Base64.Decode(data)
  }

  /** The output-length bound a receiver reads from `generationConfig`. */
  function RequestMaxOutputTokens(body: Json): Option<real> {
    var o :- AsObject(body);
    var g :- Get(o, "generationConfig");
    var config :- AsObject(g);
    var m :- Get(config, "maxOutputTokens");
    if m.JNumber? then Some(m.n) else None
  }

  /** The request body has one `contents` entry with exactly two parts: the
      prompt first, then the PNG image, from which the receiver recovers
      exactly the bytes that were captured; at most 2048 output tokens. */
  lemma RequestBodyCarriesImage(prompt: string, image: seq<Base64.byte>)
    ensures RequestParts(RequestBody(prompt, image)).Some?
    ensures |RequestParts(RequestBody(prompt, image)).value| == 2
    ensures RequestPrompt(RequestBody(prompt, image)) == Some(prompt)
    ensures RequestImage(RequestBody(prompt, image)) == Some(image)
    ensures RequestMaxOutputTokens(RequestBody(prompt, image)) == Some(2048 as real)
  {
    Base64.DecodeEncode(image);
  }

  /** `"\(baseURL)?key=\(apiKey)"`: the key is appended without escaping. */
  function RequestUrl(baseUrl: string, apiKey: string): (u: string)
    ensures |u| == |baseUrl| + 5 + |apiKey|
    ensures u[..|baseUrl|] == baseUrl && u[|baseUrl|..|baseUrl| + 5] == "?key="
    ensures u[|baseUrl| + 5..] == apiKey
  {
    baseUrl + "?key=" + apiKey
  }

  /** The key a receiver reads from a request URL for the endpoint. */
  function KeyOfUrl(baseUrl: string, url: string): Option<string> {
    var p := baseUrl + "?key=";
    if |p| <= |url| && url[..|p|] == p then Some(url[|p|..]) else None
  }

  /** The URL carries exactly the key it was built from. */
  lemma UrlCarriesKey(baseUrl: string, apiKey: string)
    ensures KeyOfUrl(baseUrl, RequestUrl(baseUrl, apiKey)) == Some(apiKey)
  {
    var p := baseUrl + "?key=";
    assert RequestUrl(baseUrl, apiKey) == p + apiKey;
    assert (p + apiKey)[..|p|] == p;
    assert (p + apiKey)[|p|..] == apiKey;
  }

  datatype Request = Request(httpMethod: string, url: string, contentType: string, body: Json)

  /** The POST request `convertImageToLatex` sends for `image` with `apiKey`,
      to the endpoint `baseUrl`, with instruction `prompt`. */
  function BuildRequest(baseUrl: string, prompt: string, apiKey: string, image: seq<Base64.byte>): (r: Request)
    ensures r.httpMethod == "POST" && r.contentType == "application/json"
    ensures KeyOfUrl(baseUrl, r.url) == Some(apiKey)
  {
    UrlCarriesKey(baseUrl, apiKey);
    RequestBodyCarriesImage(prompt, image);
    Request("POST", RequestUrl(baseUrl, apiKey), "application/json", RequestBody(prompt, image))
  }

  // ---------------------------------------------------------------------
  // The response

  /** What the transport hands back: a thrown error, a response that is not
      an HTTP response, or a status code with the body as parsed by
      `JSONSerialization` (None when it does not parse). */
  datatype Response =
    | TransportFailure(description: string)
    | NotHttp
    | Http(status: int, body: Option<Json>)

  /** A text the conversion may return: trimmed and not the sentinel. */
  predicate IsLatex(t: string) {
    NoEdgeSpace(t) && t != Sentinel
  }

  /** `errorJson["error"]["message"]` of an error body, when it is a string. */
  function ErrorMessageOf(body: Option<Json>): (r: Option<string>)
    ensures r.Some? ==> CarriesErrorMessage(body, r.value)
  {
    var j :- body;
    var o :- AsObject(j);
    var e :- Get(o, "error");
    var error :- AsObject(e);
    var m :- Get(error, "message");
    AsString(m)
  }

  /** `candidates[0]["content"]["parts"][0]["text"]` of a success body, with
      every cast the decoder applies on the way. */
  function FirstPartText(body: Option<Json>): (r: Option<string>)
    ensures r.Some? ==> CarriesText(body, r.value)
  {
    var j :- body;
    var json :- AsObject(j);
    var cs :- Get(json, "candidates");
    var candidates :- AsObjectArray(cs);
    var firstCandidate :- First(candidates);
    var c :- Get(firstCandidate, "content");
    var content :- AsObject(c);
    var ps :- Get(content, "parts");
    var parts :- AsObjectArray(ps);
    var firstPart :- First(parts);
    var t :- Get(firstPart, "text");
    AsString(t)
  }

  /** The outcome `convertImageToLatex` decides for an HTTP response. */
  function DecodeHttp(status: int, body: Option<Json>): (r: Result<string, GeminiError>)
    ensures r.Success? ==> status == 200 && IsLatex(r.value)
    ensures (r.Failure? && r.error.ApiError?) <==> status != 200
  {
    if status != 200 then
      match ErrorMessageOf(body)
      case Some(message) => Failure(ApiError(message))
      case None => Failure(ApiError("HTTP " + IntToDecimal(status)))
    else
      match FirstPartText(body)
      case None => Failure(InvalidResponse)
      case Some(text) =>
        var trimmed := Trim(text);
        if trimmed == Sentinel then Failure(NoLatexFound) else Success(trimmed)
  }

  /** The body is an object whose `error` is an object whose `message` is
      the string `m`. */
  ghost predicate CarriesErrorMessage(body: Option<Json>, m: string) {
    && body.Some? && body.value.JObject?
    && "error" in body.value.fields
    && body.value.fields["error"].JObject?
    && "message" in body.value.fields["error"].fields
    && body.value.fields["error"].fields["message"] == JString(m)
  }

  /** The body has the shape of a successful reply whose first candidate's
      first part has the string `text`; later candidates and parts are free. */
  ghost predicate CarriesText(body: Option<Json>, text: string) {
    && body.Some? && body.value.JObject?
    && var json := body.value.fields;
    && "candidates" in json && IsObjectArray(json["candidates"])
    && |json["candidates"].items| > 0
    && var candidate := json["candidates"].items[0].fields;
    && "content" in candidate && candidate["content"].JObject?
    && var content := candidate["content"].fields;
    && "parts" in content && IsObjectArray(content["parts"])
    && |content["parts"].items| > 0
    && var part := content["parts"].items[0].fields;
    && "text" in part && part["text"] == JString(text)
  }

  lemma ErrorMessageOfSpec(body: Option<Json>, m: string)
    ensures ErrorMessageOf(body) == Some(m) <==> CarriesErrorMessage(body, m)
  {
  }

  lemma FirstPartTextSpec(body: Option<Json>, text: string)
    ensures FirstPartText(body) == Some(text) <==> CarriesText(body, text)
  {
    if CarriesText(body, text) {
      var json := body.value.fields;
      var candidates := AsObjectArray(json["candidates"]).value;
      assert json["candidates"].items[0] == JObject(candidates[0]);
      var content := candidates[0]["content"].fields;
      var parts := AsObjectArray(content["parts"]).value;
      assert content["parts"].items[0] == JObject(parts[0]);
    }
  }

  /** A non-200 status with a structured error yields that error's message. */
  lemma DecodeHttpErrorMessage(status: int, body: Option<Json>, m: string)
    requires status != 200 && CarriesErrorMessage(body, m)
    ensures DecodeHttp(status, body) == Failure(ApiError(m))
  {
    ErrorMessageOfSpec(body, m);
  }

  /** A non-200 status without a structured error yields "HTTP <status>". */
  lemma DecodeHttpStatusFallback(status: int, body: Option<Json>)
    requires status != 200
    requires forall m :: !CarriesErrorMessage(body, m)
    ensures DecodeHttp(status, body) == Failure(ApiError("HTTP " + IntToDecimal(status)))
  {
  }

  /** Status 200 with the expected shape: the trimmed first text decides. */
  lemma DecodeHttpText(body: Option<Json>, text: string)
    requires CarriesText(body, text)
    ensures Trim(text) == Sentinel ==> DecodeHttp(200, body) == Failure(NoLatexFound)
    ensures Trim(text) != Sentinel ==> DecodeHttp(200, body) == Success(Trim(text))
  {
    FirstPartTextSpec(body, text);
  }

  /** Status 200 with any other shape is an invalid response: the body is not
      an object, `candidates` or `parts` is missing, not an array of objects
      or empty, `content` is not an object, or the first text is not a string. */
  lemma DecodeHttpMalformed(body: Option<Json>)
    requires forall t :: !CarriesText(body, t)
    ensures DecodeHttp(200, body) == Failure(InvalidResponse)
  {
  }

  /** Only the first candidate is consulted: replacing every later candidate
      by other objects does not change the outcome. */
  lemma DecodeHttpFirstCandidateOnly(json: Object, later: seq<Json>)
    requires "candidates" in json && IsObjectArray(json["candidates"])
    requires |json["candidates"].items| > 0
    requires forall i :: 0 <= i < |later| ==> later[i].JObject?
    ensures var other := json["candidates" := JArray(json["candidates"].items[..1] + later)];
      DecodeHttp(200, Some(JObject(other))) == DecodeHttp(200, Some(JObject(json)))
  {
    var other := json["candidates" := JArray(json["candidates"].items[..1] + later)];
    var items := other["candidates"].items;
    assert items[0] == json["candidates"].items[0];
    assert IsObjectArray(other["candidates"]) by {
      forall i | 0 <= i < |items| ensures items[i].JObject? {
        if i > 0 { assert items[i] == later[i - 1]; }
      }
    }
    forall t ensures CarriesText(Some(JObject(other)), t) <==> CarriesText(Some(JObject(json)), t) {
    }
    FirstTextDecides(Some(JObject(other)), Some(JObject(json)));
  }

  /** Only the first part of the first candidate is consulted. */
  lemma DecodeHttpFirstPartOnly(json: Object, later: seq<Json>)
    requires "candidates" in json && IsObjectArray(json["candidates"])
    requires |json["candidates"].items| > 0
    requires var candidate := json["candidates"].items[0].fields;
      "content" in candidate && candidate["content"].JObject?
      && "parts" in candidate["content"].fields
      && IsObjectArray(candidate["content"].fields["parts"])
      && |candidate["content"].fields["parts"].items| > 0
    requires forall i :: 0 <= i < |later| ==> later[i].JObject?
    ensures
      var candidate := json["candidates"].items[0].fields;
      var content := candidate["content"].fields;
      var content' := content["parts" := JArray(content["parts"].items[..1] + later)];
      var candidate' := candidate["content" := JObject(content')];
      var json' := json["candidates" := JArray([JObject(candidate')] + json["candidates"].items[1..])];
      DecodeHttp(200, Some(JObject(json'))) == DecodeHttp(200, Some(JObject(json)))
  {
    var candidate := json["candidates"].items[0].fields;
    var content := candidate["content"].fields;
    var content' := content["parts" := JArray(content["parts"].items[..1] + later)];
    var candidate' := candidate["content" := JObject(content')];
    var json' := json["candidates" := JArray([JObject(candidate')] + json["candidates"].items[1..])];
    var parts := content'["parts"].items;
    assert IsObjectArray(content'["parts"]) by {
      forall i | 0 <= i < |parts| ensures parts[i].JObject? {
        if i > 0 { assert parts[i] == later[i - 1]; }
      }
    }
    var cands := json'["candidates"].items;
    assert IsObjectArray(json'["candidates"]) by {
      forall i | 0 <= i < |cands| ensures cands[i].JObject? {
        if i > 0 { assert cands[i] == json["candidates"].items[i]; }
      }
    }
    assert parts[0] == content["parts"].items[0];
    forall t ensures CarriesText(Some(JObject(json')), t) <==> CarriesText(Some(JObject(json)), t) {
    }
    FirstTextDecides(Some(JObject(json')), Some(JObject(json)));
  }

  /** Two bodies carrying the same first text are decoded alike. */
  lemma FirstTextDecides(b1: Option<Json>, b2: Option<Json>)
    requires forall t :: CarriesText(b1, t) <==> CarriesText(b2, t)
    ensures DecodeHttp(200, b1) == DecodeHttp(200, b2)
  {
    if FirstPartText(b1).Some? {
      FirstPartTextSpec(b1, FirstPartText(b1).value);
      FirstPartTextSpec(b2, FirstPartText(b1).value);
    } else if FirstPartText(b2).Some? {
      FirstPartTextSpec(b2, FirstPartText(b2).value);
      FirstPartTextSpec(b1, FirstPartText(b2).value);
    }
  }

  // ---------------------------------------------------------------------
  // Replies of a well-behaved service, and the round trip through the decoder

  /** `{"error": {"message": m}}` */
  function ErrorBody(message: string): Json {
    JObject(map["error" := JObject(map["message" := JString(message)])])
  }

  /** `{"candidates": [{"content": {"parts": [{"text": t}]}}]}` */
  function SuccessBody(text: string): Json {
    JObject(map["candidates" := JArray([
      JObject(map["content" := JObject(map["parts" := JArray([
        JObject(map["text" := JString(text)])])])])])])
  }

  lemma SuccessBodyCarriesText(text: string)
    ensures CarriesText(Some(SuccessBody(text)), text)
  {
    var parts := JArray([JObject(map["text" := JString(text)])]);
    var candidates := JArray([JObject(map["content" := JObject(map["parts" := parts])])]);
    assert IsObjectArray(parts);
    assert IsObjectArray(candidates);
  }

  lemma ErrorBodyCarriesMessage(message: string)
    ensures CarriesErrorMessage(Some(ErrorBody(message)), message)
  {
  }

  /** A success reply is decoded as its trimmed text ... */
  lemma DecodeSuccessBody(t: string)
    requires Trim(t) != Sentinel
    ensures DecodeHttp(200, Some(SuccessBody(t))) == Success(Trim(t))
  {
    SuccessBodyCarriesText(t);
    DecodeHttpText(Some(SuccessBody(t)), t);
  }

  /** ... unless that is the sentinel. */
  lemma DecodeNoMathBody(t: string)
    requires Trim(t) == Sentinel
    ensures DecodeHttp(200, Some(SuccessBody(t))) == Failure(NoLatexFound)
  {
    SuccessBodyCarriesText(t);
    DecodeHttpText(Some(SuccessBody(t)), t);
  }

  lemma TrimUnpadded(t: string)
    requires NoEdgeSpace(t)
    ensures Trim(t) == t
  {
    assert [] + t + [] == t;
    TrimPadded([], t, []);
  }

  /** A status and body with which the service reports outcome `r`. */
  function Reply(r: Result<string, GeminiError>): (int, Option<Json>) {
    match r
    case Success(t) => (200, Some(SuccessBody(t)))
    case Failure(NoLatexFound) => (200, Some(SuccessBody(Sentinel)))
    case Failure(InvalidResponse) => (200, Some(JObject(map[])))
    case Failure(ApiError(m)) => (400, Some(ErrorBody(m)))
  }

  /** Every failure, and every trimmed non-sentinel text, is decoded from
      the reply that reports it: the decoder's outcomes are exactly these. */
  lemma DecodeReply(r: Result<string, GeminiError>)
    requires r.Success? ==> IsLatex(r.value)
    ensures DecodeHttp(Reply(r).0, Reply(r).1) == r
  {
    match r
    case Success(t) =>
      TrimUnpadded(t);
      DecodeSuccessBody(t);
    case Failure(NoLatexFound) =>
      TrimUnpadded(Sentinel);
      DecodeNoMathBody(Sentinel);
    case Failure(InvalidResponse) =>
      DecodeHttpMalformed(Some(JObject(map[])));
    case Failure(ApiError(m)) =>
      ErrorBodyCarriesMessage(m);
      DecodeHttpErrorMessage(400, Some(ErrorBody(m)), m);
  }

  /** Worked replies: padded text is trimmed, and the padded sentinel means
      no LaTeX. */
  lemma DecodeTextExamples()
    ensures DecodeHttp(200, Some(SuccessBody("  x^2\n"))) == Success("x^2")
    ensures DecodeHttp(200, Some(SuccessBody("NO_MATH_FOUND\n"))) == Failure(NoLatexFound)
  {
    TrimExamples();
    DecodeSuccessBody("  x^2\n");
    DecodeNoMathBody("NO_MATH_FOUND\n");
  }

  lemma TrimExamples()
    ensures Trim("  x^2\n") == "x^2"
    ensures Trim("NO_MATH_FOUND\n") == Sentinel
  {
    TrimPaddedExample();
    TrimSentinelExample();
  }

  lemma TrimPaddedExample()
    ensures Trim("  x^2\n") == "x^2"
  {
    var pre, t, post := "  ", "x^2", "\n";
    assert AllSpace(pre) by { assert pre[0] == ' ' && pre[1] == ' '; }
    assert AllSpace(post) by { assert post[0] == '\n'; }
    assert NoEdgeSpace(t) by { assert t[0] == 'x' && t[2] == '2'; }
    TrimPadded(pre, t, post);
    assert pre + t + post == "  x^2\n";
  }

  lemma TrimSentinelExample()
    ensures Trim("NO_MATH_FOUND\n") == Sentinel
  {
    var post := "\n";
    assert AllSpace(post) by { assert post[0] == '\n'; }
    assert NoEdgeSpace(Sentinel) by { assert Sentinel[0] == 'N' && Sentinel[12] == 'D'; }
    TrimPadded([], Sentinel, post);
    assert [] + Sentinel + post == "NO_MATH_FOUND\n";
  }

  /** Worked replies: an error body for a rejected key yields its message, and
      an unparsable body the status. */
  lemma DecodeErrorExamples()
    ensures DecodeHttp(400, Some(ErrorBody("bad key"))) == Failure(ApiError("bad key"))
    ensures DecodeHttp(503, None) == Failure(ApiError("HTTP 503"))
  {
    ErrorBodyCarriesMessage("bad key");
    DecodeHttpErrorMessage(400, Some(ErrorBody("bad key")), "bad key");
    assert IntToDecimal(503) == "503" by {
      assert NatToDecimal(50) == "50" by { assert NatToDecimal(5) == "5"; }
    }
    assert "HTTP " + "503" == "HTTP 503";
  }

  // ---------------------------------------------------------------------
  // The whole conversion

  /** Errors `convertImageToLatex` throws: its own, or the transport's. */
  datatype ConvertError = Gemini(error: GeminiError) | Transport(description: string)

  /** `error.localizedDescription`: a GeminiError is a LocalizedError, so its
      description is `errorDescription`; a transport error brings its own. */
  function LocalizedDescription(e: ConvertError): string {
    match e
    case Gemini(g) => ErrorDescription(g)
    case Transport(d) => d
  }

  /** The message shown identifies the service's own error: distinct
      GeminiErrors are shown differently. */
  lemma LocalizedDescriptionIdentifiesGeminiError(a: GeminiError, b: GeminiError)
    requires LocalizedDescription(Gemini(a)) == LocalizedDescription(Gemini(b))
    ensures a == b
  {
    ErrorDescriptionInjective(a, b);
  }

  /** The message shown does not tell a transport failure from the service's
      own error: a transport error whose description reads like a
      GeminiError's is shown exactly as that error. */
  lemma LocalizedDescriptionAmbiguous(g: GeminiError)
    ensures LocalizedDescription(Transport(ErrorDescription(g))) == LocalizedDescription(Gemini(g))
    ensures Transport(ErrorDescription(g)) != Gemini(g)
  {
  }

  /** The outcome of `convertImageToLatex` for what the transport returned. */
  function DecodeResponse(response: Response): (r: Result<string, ConvertError>)
    ensures r.Success? ==> IsLatex(r.value)
    ensures response.NotHttp? ==> r == Failure(Gemini(InvalidResponse))
    ensures response.TransportFailure? ==> r == Failure(Transport(response.description))
  {
    match response
    case TransportFailure(d) => Failure(Transport(d))
    case NotHttp => Failure(Gemini(InvalidResponse))
    case Http(status, body) =>
      match DecodeHttp(status, body)
      case Success(t) => Success(t)
      case Failure(e) => Failure(Gemini(e))
  }

  /** `UserDefaults.standard`, reduced to the entry under "gemini_api_key":
      None when absent or neither a string nor a number
      (`string(forKey:)` reads a stored number as its decimal text). */
  class Defaults {
    var apiKeyEntry: Option<string>

    constructor (entry: Option<string>)
      ensures apiKeyEntry == entry
    {
      apiKeyEntry := entry;
    }
  }

  class GeminiService {
    const defaults: Defaults
    /** `baseURL`: the endpoint, always BaseUrl. */
    const baseUrl: string
    /** The instruction text sent with every image, always Prompt. */
    const prompt: string
    /** Whether Foundation's `URL(string:)` accepts a URL text; it declines,
        for instance, some texts with characters a URL may not hold. */
    const urlAccepted: string -> bool

    constructor (defaults: Defaults, urlAccepted: string -> bool)
      ensures this.defaults == defaults && this.urlAccepted == urlAccepted
      ensures baseUrl == BaseUrl && prompt == Prompt
    {
      this.defaults := defaults;
      baseUrl := BaseUrl;
      prompt := Prompt;
      this.urlAccepted := urlAccepted;
    }

    /** The `apiKey` getter: an absent entry reads as the empty key. */
    function ApiKey(): (k: string)
      reads defaults
      ensures k == "" <==> (defaults.apiKeyEntry.None? || defaults.apiKeyEntry == Some(""))
    {
      match defaults.apiKeyEntry
      case Some(k) => k
      case None => ""
    }

    /** The `apiKey` setter: the key is stored, and read back by the getter. */
    method SetApiKey(k: string)
      modifies defaults
      ensures defaults.apiKeyEntry == Some(k)
      ensures ApiKey() == k
    {
      defaults.apiKeyEntry := Some(k);
    }

    /** The requests `convertImageToLatex` sends for `imageData` with the
        key stored now: one, unless the URL is refused. */
    function Sent(imageData: seq<Base64.byte>): (s: seq<Request>)
      reads defaults
      ensures |s| <= 1
      ensures s != [] <==> urlAccepted(RequestUrl(baseUrl, ApiKey()))
    {
      var key := ApiKey();
      if urlAccepted(RequestUrl(baseUrl, key)) then [BuildRequest(baseUrl, prompt, key, imageData)] else []
    }

    /** The outcome `convertImageToLatex` reaches with the key stored now;
        with Sent, this is the specification ConvertImageToLatex meets. */
    function Outcome(imageData: seq<Base64.byte>, network: Request -> Response): (r: Result<string, ConvertError>)
      reads defaults
      ensures r.Success? ==> IsLatex(r.value) && Sent(imageData) != []
    {
      var key := ApiKey();
      if urlAccepted(RequestUrl(baseUrl, key)) then DecodeResponse(network(BuildRequest(baseUrl, prompt, key, imageData)))
      else Failure(Gemini(InvalidResponse))
    }

    /** `convertImageToLatex`: with the key stored at the time of the call,
        either the URL is refused and nothing is sent, or one request built
        from the key and the image is sent and the transport's answer to it
        decides the outcome. */
    method ConvertImageToLatex(imageData: seq<Base64.byte>, network: Request -> Response)
      returns (sent: Option<Request>, r: Result<string, ConvertError>)
      ensures r.Success? ==> sent.Some? && IsLatex(r.value)
      ensures (if sent.Some? then [sent.value] else []) == Sent(imageData)
      ensures r == Outcome(imageData, network)
    {
      var key := ApiKey();
      if !urlAccepted(RequestUrl(baseUrl, key)) {
        return None, Failure(Gemini(InvalidResponse));
      }
      var request := BuildRequest(baseUrl, prompt, key, imageData);
      sent := Some(request);
      r := DecodeResponse(network(request));
    }
  }
}
