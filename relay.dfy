/** The serverless relay (`netlify/functions/chat.js`, `handler`): one request
    in, one response out, and at most one POST to the upstream service on the
    way. The environment, the request body's parse and the upstream call's
    outcome are inputs; the function decides everything else. */
module Relay {
  import opened JsValues
  import opened JsStrings

  /** The longest message the relay forwards, counted in characters (a
      character above U+FFFF counts once here, twice in JavaScript). */
  const MaxMessageLength := 285

  /** The two environment values; `None` is an unset variable. */
  datatype Config = Config(apiUrl: Option<string>, apiKey: Option<string>)

  /** `!API_URL || !API_KEY`: an unset or empty variable counts as missing. */
  predicate ConfigMissing(c: Config)
  {
    c.apiUrl == None || c.apiUrl == Some("") || c.apiKey == None || c.apiKey == Some("")
  }

  /** What the awaited `fetch` and `response.json()` give: a status with the
      parsed body, or a rejection with its error message (a network failure,
      or an upstream body that is not JSON). */
  datatype Upstream = Replied(status: int, data: Json) | Failed(message: string)

  /** The one request the relay sends upstream. */
  datatype UpstreamRequest = UpstreamRequest(url: string, httpMethod: string, headers: map<string, string>, body: Json)

  /** A response body before `JSON.stringify`, or the empty text. */
  datatype Payload = EmptyText | Serialized(value: Json)

  datatype Response = Response(status: int, headers: map<string, string>, body: Payload)

  /** The relay's whole effect: its response, and the upstream request it made. */
  datatype Outcome = Outcome(response: Response, forwarded: Option<UpstreamRequest>)

  /** The header set of the non-POST answer, the preflight and the success. */
  const CorsWithMethods: map<string, string> :=
    map["Access-Control-Allow-Origin" := "*",
        "Access-Control-Allow-Headers" := "Content-Type",
        "Access-Control-Allow-Methods" := "POST, OPTIONS"]

  /** The header set of every error answered from inside the `try`. */
  const Cors: map<string, string> :=
    map["Access-Control-Allow-Origin" := "*",
        "Access-Control-Allow-Headers" := "Content-Type"]

  /** `{error: text}`. */
  function ErrorBody(text: string): Json
  {
    JObject(map["error" := JString(text)])
  }

  /** The V8 messages of the two TypeErrors the handler can raise itself. */
  const NullReadMessage := "Cannot read properties of null (reading 'message')"
  const TrimNotAFunctionMessage := "requestBody.message.trim is not a function"

  predicate IsOk(status: int)
  {
    200 <= status <= 299
  }

  /** The run of the `try` block: it returns a response, or it throws with a
      message, possibly after the upstream request was sent. */
  datatype Attempt = Returned(outcome: Outcome) | Threw(message: string, sent: Option<UpstreamRequest>)

  /** The upstream request made during an attempt, if any. */
  function Sent(a: Attempt): Option<UpstreamRequest>
  {
    match a
    case Returned(o) => o.forwarded
    case Threw(_, sent) => sent
  }

  predicate AllowsAnyOrigin(r: Response)
  {
    "Access-Control-Allow-Origin" in r.headers && r.headers["Access-Control-Allow-Origin"] == "*"
  }

  /** A message that passes both validation steps, as the handler sees it. */
  predicate Forwardable(m: string)
  {
    |Trim(m)| > 0 && |m| <= MaxMessageLength
  }

  /** The request the relay sends for message `m`: a POST of `{message: m}`
      with the key in `X-API-Key`. */
  function UpstreamCall(url: string, key: string, m: string): UpstreamRequest
  {
    UpstreamRequest(url, "POST",
                    map["Content-Type" := "application/json", "X-API-Key" := key],
                    JObject(map["message" := JString(m)]))
  }

  /** Lines 47 to 138: configuration, parse, validation, the upstream call
      and the mapping of its reply. */
  function TryBlock(config: Config, body: Parse, upstream: Upstream): (a: Attempt)
    ensures a.Returned? ==> AllowsAnyOrigin(a.outcome.response)
    ensures Sent(a).Some? <==> !ConfigMissing(config) && AcceptedMessage(body).Some?
    ensures Sent(a).Some? ==>
              Sent(a).value == UpstreamCall(config.apiUrl.value, config.apiKey.value, AcceptedMessage(body).value)
    ensures Sent(a).Some? && upstream.Failed? ==> a == Threw(upstream.message, Sent(a))
  {
    if ConfigMissing(config) then
      Returned(Outcome(Response(500, Cors, Serialized(ErrorBody("Server configuration error"))), None))
    else if body.Unparseable? then
      Returned(Outcome(Response(400, Cors, Serialized(ErrorBody("Invalid JSON in request body"))), None))
    else if body.value.JNull? then
      Threw(NullReadMessage, None)
    else
      var message := Property(body.value, "message");
      if !Truthy(message) then
        Returned(Outcome(Response(400, Cors, Serialized(ErrorBody("Message is required"))), None))
      else if !message.value.JString? then
        Threw(TrimNotAFunctionMessage, None)
      else if |Trim(message.value.s)| == 0 then
        Returned(Outcome(Response(400, Cors, Serialized(ErrorBody("Message is required"))), None))
      else if |message.value.s| > MaxMessageLength then
        Returned(Outcome(Response(400, Cors, Serialized(ErrorBody("Message too long. Maximum 285 characters allowed."))), None))
      else
        var call := UpstreamCall(config.apiUrl.value, config.apiKey.value, message.value.s);
        match upstream
        case Failed(text) => Threw(text, Some(call))
        case Replied(status, data) =>
          if !IsOk(status) then
            Returned(Outcome(Response(status, Cors,
                                      Serialized(JObject(map["error" := JString("Failed to process request"),
                                                             "details" := data]))),
                             Some(call)))
          else
            Returned(Outcome(Response(200, CorsWithMethods, Serialized(data)), Some(call)))
  }

  /** The message the handler forwards from a parsed body, if all its checks
      pass; this names the accepted inputs independently of the handler. */
  function AcceptedMessage(body: Parse): Option<string>
  {
    if body.Parsed? && body.value.JObject? && "message" in body.value.members
       && body.value.members["message"].JString? && Forwardable(body.value.members["message"].s)
    then Some(body.value.members["message"].s)
    else None
  }

  /** `handler`: the method gate, the (unreachable) preflight branch, then the
      `try` block with its catch-all. */
  function Handle(httpMethod: string, config: Config, body: Parse, upstream: Upstream): (r: Outcome)
    // every response allows any origin
    ensures AllowsAnyOrigin(r.response)
    // anything but POST, OPTIONS included, is refused before any other check
    ensures httpMethod != "POST" ==>
              r == Outcome(Response(405, CorsWithMethods, Serialized(ErrorBody("Method not allowed"))), None)
    // a missing environment value wins over whatever the body holds
    ensures httpMethod == "POST" && ConfigMissing(config) ==>
              r == Outcome(Response(500, Cors, Serialized(ErrorBody("Server configuration error"))), None)
    ensures httpMethod == "POST" && !ConfigMissing(config) && body.Unparseable? ==>
              r == Outcome(Response(400, Cors, Serialized(ErrorBody("Invalid JSON in request body"))), None)
    // a body that parses to a string, number, boolean or array has an undefined `message`
    ensures httpMethod == "POST" && !ConfigMissing(config) && body.Parsed? && !body.value.JNull?
            && !body.value.JObject? ==>
              r == Outcome(Response(400, Cors, Serialized(ErrorBody("Message is required"))), None)
    // exactly one upstream request, exactly for the accepted inputs, carrying the message untrimmed
    ensures r.forwarded.Some? <==> httpMethod == "POST" && !ConfigMissing(config) && AcceptedMessage(body).Some?
    ensures r.forwarded.Some? ==>
              r.forwarded.value == UpstreamCall(config.apiUrl.value, config.apiKey.value, AcceptedMessage(body).value)
    // upstream's reply is relayed: its own status and a wrapped body when not ok, 200 and its data when ok
    ensures r.forwarded.Some? && upstream.Replied? && !IsOk(upstream.status) ==>
              r.response == Response(upstream.status, Cors,
                                     Serialized(JObject(map["error" := JString("Failed to process request"),
                                                            "details" := upstream.data])))
    ensures r.forwarded.Some? && upstream.Replied? && IsOk(upstream.status) ==>
              r.response == Response(200, CorsWithMethods, Serialized(upstream.data))
    ensures r.forwarded.Some? && upstream.Failed? ==>
              r.response == Response(500, Cors, Serialized(JObject(map["error" := JString("Internal server error"),
                                                                       "message" := JString(upstream.message)])))
  {
    if httpMethod != "POST" then
      Outcome(Response(405, CorsWithMethods, Serialized(ErrorBody("Method not allowed"))), None)
    else if httpMethod == "OPTIONS" then
      Outcome(Response(200, CorsWithMethods, EmptyText), None)
    else
      match TryBlock(config, body, upstream)
      case Returned(o) => o
      case Threw(text, sent) =>
        Outcome(Response(500, Cors, Serialized(JObject(map["error" := JString("Internal server error"),
                                                           "message" := JString(text)]))),
                sent)
  }

  /** The CORS preflight branch is dead: an OPTIONS request is refused with 405
      like any other method that is not POST. */
  lemma PreflightUnreachable(config: Config, body: Parse, upstream: Upstream)
    ensures Handle("OPTIONS", config, body, upstream).response.status == 405
    ensures Handle("OPTIONS", config, body, upstream).response.body != EmptyText
  {
  }

  /** A body of `null` parses, but reading its `message` throws, so the
      catch-all answers 500 and nothing is forwarded. */
  lemma NullBodyIsInternalError(config: Config, upstream: Upstream)
    requires !ConfigMissing(config)
    ensures Handle("POST", config, Parsed(JNull), upstream) ==
            Outcome(Response(500, Cors, Serialized(JObject(map["error" := JString("Internal server error"),
                                                               "message" := JString(NullReadMessage)]))),
                    None)
  {
  }

  /** A `message` that is falsy gives 400 "Message is required"; one that is
      truthy but not a string has no `trim` and gives 500. */
  lemma MessageTypeRules(config: Config, obj: map<string, Json>, upstream: Upstream)
    requires !ConfigMissing(config)
    ensures !Truthy(if "message" in obj then Some(obj["message"]) else None) ==>
              Handle("POST", config, Parsed(JObject(obj)), upstream).response ==
              Response(400, Cors, Serialized(ErrorBody("Message is required")))
    ensures "message" in obj && Truthy(Some(obj["message"])) && !obj["message"].JString? ==>
              Handle("POST", config, Parsed(JObject(obj)), upstream) ==
              Outcome(Response(500, Cors, Serialized(JObject(map["error" := JString("Internal server error"),
                                                                 "message" := JString(TrimNotAFunctionMessage)]))),
                      None)
  {
  }

  /** For a string message the checks run in order: blank after trimming is
      "required", and only then is the untrimmed length held against 285. */
  lemma StringMessageRules(config: Config, m: string, rest: map<string, Json>, upstream: Upstream)
    requires !ConfigMissing(config)
    ensures AllWhitespace(m) ==>
              Handle("POST", config, Parsed(JObject(rest["message" := JString(m)])), upstream).response ==
              Response(400, Cors, Serialized(ErrorBody("Message is required")))
    ensures !AllWhitespace(m) && |m| > MaxMessageLength ==>
              Handle("POST", config, Parsed(JObject(rest["message" := JString(m)])), upstream).response ==
              Response(400, Cors, Serialized(ErrorBody("Message too long. Maximum 285 characters allowed.")))
  {
    TrimEmptyIffBlank(m);
  }
}
