/**
 * `POST /api/generate-practice-code`: checks the caller is signed in,
 * normalises the request body into the generator's options, validates the
 * mood, runs the generator and turns what it threw into a 500 response.
 */
module GenerateRoute {
  import opened Js
  import opened Moods
  import opened PracticeCode

  datatype Reply =
    | ErrorReply(error: string)
    | CodeReply(code: string, language: string)

  datatype Response = Response(status: int, reply: Reply)

  const MoodMessage := "mood is required and must be low, moderate, or high"
  const FallbackMessage := "Failed to generate practice code"

  /** `typeof body.timeAvailable === 'number' ? body.timeAvailable : 30` */
  function TimeAvailable(v: Value): real {
    if v.Number? then v.n else 30.0
  }

  /** `body.language && LANGUAGES.includes(body.language) ? body.language : undefined` */
  function RequestedLanguage(v: Value): (r: Option<PracticeLanguage>)
    ensures r.Some? <==> v.Str? && LanguageNamed(v.s).Some?
    ensures r.Some? ==> v == Str(LanguageName(r.value))
  {
    if Truthy(v) && v.Str? then LanguageNamed(v.s) else None
  }

  /** The generator's options read from the body, or `None` when the mood is missing or not one of the three. */
  function RequestOptions(body: Body): (r: Option<Options>)
    ensures r.None? <==> Get(body, "mood") !in {Str("low"), Str("moderate"), Str("high")}
    ensures r.Some? ==> && Get(body, "mood") == Str(MoodName(r.value.mood))
                        && (Get(body, "timeAvailable").Number? ==> r.value.timeAvailable == Get(body, "timeAvailable").n)
                        && (!Get(body, "timeAvailable").Number? ==> r.value.timeAvailable == 30.0)
                        && (r.value.language.Some? ==> Get(body, "language") == Str(LanguageName(r.value.language.value)))
                        && (r.value.language.None? ==> !(Get(body, "language").Str? && LanguageNamed(Get(body, "language").s).Some?))
  {
    var mood := ParseMood(Get(body, "mood"));
    if mood.None? then None
    else Some(Options(mood.value, TimeAvailable(Get(body, "timeAvailable")), RequestedLanguage(Get(body, "language"))))
  }

  /** The `catch`: an `Error`'s message, or the fallback for anything else thrown. */
  function ServerError(err: Thrown): Response {
    Response(500, ErrorReply(if err.Error? then err.message else FallbackMessage))
  }

  /**
   * The handler. `signedIn` is whether the session has a user, `body` the
   * parsed JSON body or what `req.json()` threw, and the last three are the
   * environment keys and the model call, as `GeneratePracticeCode` takes them.
   */
  function Post(signedIn: bool, body: Outcome<Body>, geminiKey: Option<string>, googleKey: Option<string>,
                response: Outcome<Option<string>>): Response
  {
    if !signedIn then Response(401, ErrorReply("Unauthorized"))
    else if body.Threw? then ServerError(body.thrown)
    else
      match RequestOptions(body.value)
      case None => Response(400, ErrorReply(MoodMessage))
      case Some(options) =>
        match GeneratePracticeCode(options, geminiKey, googleKey, response)
        case Done(result) => Response(200, CodeReply(result.code, LanguageName(result.language)))
        case Threw(err) => ServerError(err)
  }

  /** Without a signed-in user the answer is 401, whatever the body and the generator. */
  lemma UnauthorizedFirst(body: Outcome<Body>, geminiKey: Option<string>, googleKey: Option<string>,
                          response: Outcome<Option<string>>)
    ensures Post(false, body, geminiKey, googleKey, response) == Response(401, ErrorReply("Unauthorized"))
  {
  }

  /** A missing or unknown mood is refused with 400 before anything is generated. */
  lemma BadMoodRefused(body: Body, geminiKey: Option<string>, googleKey: Option<string>,
                       response: Outcome<Option<string>>)
    requires ParseMood(Get(body, "mood")).None?
    ensures Post(true, Done(body), geminiKey, googleKey, response) == Response(400, ErrorReply(MoodMessage))
  {
  }

  /** Thirty minutes unless the body gives a number; a language only when it is one of the six. */
  lemma OptionDefaults(body: Body)
    requires ParseMood(Get(body, "mood")).Some?
    ensures var o := RequestOptions(body).value;
            && (!Get(body, "timeAvailable").Number? ==> o.timeAvailable == 30.0)
            && (Get(body, "timeAvailable").Number? ==> o.timeAvailable == Get(body, "timeAvailable").n)
            && (o.language.None? <==> !(Get(body, "language").Str? && LanguageNamed(Get(body, "language").s).Some?))
  {
  }

  /**
   * With a valid request the answer is 200 with the generator's code and
   * language exactly when the generator succeeds, and 500 otherwise.
   */
  lemma GeneratorOutcome(body: Body, geminiKey: Option<string>, googleKey: Option<string>,
                         response: Outcome<Option<string>>)
    requires RequestOptions(body).Some?
    ensures var g := GeneratePracticeCode(RequestOptions(body).value, geminiKey, googleKey, response);
            var r := Post(true, Done(body), geminiKey, googleKey, response);
            && (g.Done? ==> r == Response(200, CodeReply(g.value.code, LanguageName(g.value.language))))
            && (g.Threw? ==> r.status == 500)
            && (g.Threw? && g.thrown.Error? ==> r.reply == ErrorReply(g.thrown.message))
  {
  }

  /** The language in a successful answer is the requested one, or javascript. */
  lemma AnswerLanguage(body: Body, geminiKey: Option<string>, googleKey: Option<string>,
                       response: Outcome<Option<string>>)
    ensures var r := Post(true, Done(body), geminiKey, googleKey, response);
            r.status == 200 ==>
              r.reply.CodeReply? &&
              r.reply.language == LanguageName(RequestedLanguage(Get(body, "language")).GetOr(JavaScript))
  {
    var o := RequestOptions(body);
    if o.Some? {
      ResultLanguage(o.value, geminiKey, googleKey, response);
    }
  }
}
