/**
 * `ai_decision_maker` and the part of the `/decision` endpoint that decides
 * what the caller gets back.
 *
 * The language-model call, `json.loads` and the POST to the downstream
 * execution service are not modelled: they appear as an outcome given to
 * the model (`LlmCall`) or as oracle functions (`parse`, `post`, `llm`).
 */
module DecisionMaker {
  import opened PyText
  import opened JsonCleanup

  datatype Option<+T> = None | Some(value: T)

  /** What `client.responses.create(...)` did: replied with some `output_text`, or raised. */
  datatype LlmCall = Replied(outputText: string) | CallRaised(error: string)

  /** What `json.loads` did on a text: returned a value, or raised an error whose `str` is given. */
  datatype ParseOutcome<J> = Parsed(value: J) | ParseRaised(error: string)

  /**
   * The dictionary `ai_decision_maker` returns: either the parsed reply,
   * unchanged, or the fallback record `{"task", "formattedQuery", "debug_error"}`.
   */
  datatype Decision<J> =
    | Classified(value: J)
    | Problem(task: string, formattedQuery: string, debugError: string)

  /** A Python call either returns a value or raises an exception whose `str` is given. */
  datatype Outcome<T> = Returned(value: T) | Raised(error: string)

  /**
   * The request body as `request.get_json(force=True)` and `data.get` see it:
   * an object, with or without "message", or a failure with its error text.
   * A body that parses to something other than an object (`[1]`, `null`)
   * makes `data.get` raise `AttributeError`; here that is `Unreadable` with
   * that error's text.
   */
  datatype Request = JsonObject(message: Option<string>) | Unreadable(error: string)

  /** What `requests.post(...)` followed by `.json()` did: a decoded body, or a raised error. */
  datatype PostOutcome<R> = Responded(body: R) | PostRaised(error: string)

  /** The body `jsonify` sends back, always with status 200. */
  datatype Response<R> = Relayed(body: R) | ErrorObject(error: string)

  const ProblemTask := "problem"

  /** The local variable that is still unbound when the language-model call raises. */
  const CleanedOutput := "cleaned_output"

  /** `str()` of the `UnboundLocalError` raised on reading an unassigned local (CPython 3.11 wording). */
  function UnboundLocalMessage(name: string): string
  {
    "cannot access local variable '" + name + "' where it is not associated with a value"
  }

  /**
   * The text handed to `json.loads`: the reply stripped, then cleaned. It
   * has no whitespace at its ends, and it is the stripped reply with only
   * commas and whitespace deleted.
   */
  function ParserInput(outputText: string): (t: string)
    ensures Trimmed(t)
    ensures DropsOnly(Strip(outputText), t)
    ensures Kept(t) == Kept(Strip(outputText))
  {
    CleanJsonStringKeepsTrimmed(Strip(outputText));
    CleanJsonString(Strip(outputText))
  }

  /**
   * `ai_decision_maker`, given what the language-model call did and the
   * parser. A parsed reply is returned unchanged; a reply the parser rejects
   * gives the "problem" record carrying the very text the parser rejected
   * and the parser's error; a raising model call escapes as the error
   * raised while building the fallback record, which reads `cleaned_output`
   * before it was ever assigned.
   */
  function AiDecisionMaker<J>(call: LlmCall, parse: string -> ParseOutcome<J>): (r: Outcome<Decision<J>>)
    ensures r.Raised? <==> call.CallRaised?
    ensures r.Raised? ==> r.error == UnboundLocalMessage(CleanedOutput)
    ensures r.Returned? && r.value.Problem? ==>
      && r.value.task == ProblemTask
      && parse(r.value.formattedQuery) == ParseRaised(r.value.debugError)
      && r.value.formattedQuery == ParserInput(call.outputText)
    ensures r.Returned? && r.value.Classified? ==>
      parse(ParserInput(call.outputText)) == Parsed(r.value.value)
  {
    match call
    case CallRaised(_) => Raised(UnboundLocalMessage(CleanedOutput))
    case Replied(text) =>
      var cleaned := ParserInput(text);
      match parse(cleaned)
      case Parsed(v) => Returned(Classified(v))
      case ParseRaised(e) => Returned(Problem(ProblemTask, cleaned, e))
  }

  /** `data.get("message", "")`: the message when the key is present, the empty text otherwise. */
  function MessageOf(req: Request): (m: string)
    requires req.JsonObject?
    ensures req.message.Some? ==> m == req.message.value
    ensures req.message.None? ==> m == ""
  {
    match req.message
    case None => ""
    case Some(m) => m
  }

  /**
   * The `/decision` endpoint: read the message, decide, forward the
   * decision and relay the downstream answer; every exception on the way
   * becomes `{"error": str(e)}`.
   */
  function DecisionEndpoint<J, R>(
    req: Request,
    llm: string -> LlmCall,
    parse: string -> ParseOutcome<J>,
    post: Decision<J> -> PostOutcome<R>
  ): (r: Response<R>)
    ensures req.Unreadable? ==> r == ErrorObject(req.error)
    ensures req.JsonObject? && llm(MessageOf(req)).CallRaised? ==>
      r == ErrorObject(UnboundLocalMessage(CleanedOutput))
    ensures r.Relayed? ==>
      && req.JsonObject?
      && AiDecisionMaker(llm(MessageOf(req)), parse).Returned?
      && post(AiDecisionMaker(llm(MessageOf(req)), parse).value) == Responded(r.body)
    ensures req.JsonObject? && llm(MessageOf(req)).Replied? ==>
      var d := AiDecisionMaker(llm(MessageOf(req)), parse).value;
      (r.Relayed? <==> post(d).Responded?) && (r.ErrorObject? ==> r.error == post(d).error)
  {
    match req
    case Unreadable(e) => ErrorObject(e)
    case JsonObject(_) =>
      match AiDecisionMaker(llm(MessageOf(req)), parse)
      case Raised(e) => ErrorObject(e)
      case Returned(decision) =>
        match post(decision)
        case Responded(body) => Relayed(body)
        case PostRaised(e) => ErrorObject(e)
  }

  /**
   * When the model call raises, no "problem" record is built or forwarded:
   * the answer is the same whatever the model's error was and whatever the
   * downstream service would have said.
   */
  lemma LlmFailureIsNotForwarded<J, R>(
    req: Request,
    llm1: string -> LlmCall, llm2: string -> LlmCall,
    parse: string -> ParseOutcome<J>,
    post1: Decision<J> -> PostOutcome<R>, post2: Decision<J> -> PostOutcome<R>
  )
    requires req.JsonObject?
    requires llm1(MessageOf(req)).CallRaised? && llm2(MessageOf(req)).CallRaised?
    ensures DecisionEndpoint(req, llm1, parse, post1) == DecisionEndpoint(req, llm2, parse, post2)
    ensures DecisionEndpoint(req, llm1, parse, post1).ErrorObject?
  {
  }

  /** A request without "message" is handled as one with the empty message. */
  lemma MissingMessageIsEmpty<J, R>(
    llm: string -> LlmCall,
    parse: string -> ParseOutcome<J>,
    post: Decision<J> -> PostOutcome<R>
  )
    ensures DecisionEndpoint(JsonObject(None), llm, parse, post)
         == DecisionEndpoint(JsonObject(Some("")), llm, parse, post)
  {
  }

  /**
   * A reply that is an object whose last member is followed by a comma and
   * whitespace (`"...",\n}`), surrounded by whitespace, reaches the parser
   * as the object without the comma and that whitespace.
   */
  lemma {:induction false} TrailingCommaReplyReachesParserClean(lead: string, body: string, w: string, trail: string)
    requires AllSpace(lead) && AllSpace(w) && AllSpace(trail)
    requires '}' !in body && ']' !in body
    ensures ParserInput(lead + ("{" + body + "," + w + "}") + trail) == "{" + body + "}"
  {
    var m := "{" + body + "," + w + "}";
    assert m[0] == '{' && m[|m| - 1] == '}';
    StripUnique(lead, m, trail);
    CleanJsonStringObjectTrailingComma(body, w);
  }

  /**
   * End to end: when the parser accepts the cleaned reply and the downstream
   * service answers, the caller receives exactly that answer to exactly
   * the parsed value.
   */
  lemma {:induction false} ParsedReplyIsRelayed<J, R>(
    message: string, text: string, v: J,
    llm: string -> LlmCall,
    parse: string -> ParseOutcome<J>,
    post: Decision<J> -> PostOutcome<R>
  )
    requires llm(message) == Replied(text)
    requires parse(ParserInput(text)) == Parsed(v)
    requires post(Classified(v)).Responded?
    ensures DecisionEndpoint(JsonObject(Some(message)), llm, parse, post) == Relayed(post(Classified(v)).body)
  {
    var req := JsonObject(Some(message));
    assert MessageOf(req) == message;
    assert AiDecisionMaker(llm(message), parse) == Returned(Classified(v));
  }
}
