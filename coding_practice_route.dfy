/**
 * `POST /api/coding-practice`: records a finished typing session. The
 * handler checks that the required properties are present, converts the
 * optional ones, stores the session through `createCodingPracticeSession`
 * and maps what was thrown to an HTTP status.
 */
module CodingPracticeRoute {
  import opened Js

  const MissingFieldsMessage :=
    "Missing required fields: language, startedAt, endedAt, durationSeconds, charactersTyped, charactersCorrect, accuracyPercent"
  const NotAuthenticated := "Not authenticated"
  const InternalError := "Internal server error"

  /** The properties that must be neither null nor undefined (besides a truthy `language`). */
  const RequiredFields: seq<string> :=
    ["startedAt", "endedAt", "durationSeconds", "charactersTyped", "charactersCorrect", "accuracyPercent"]

  /** The guard of the handler, condition by condition. */
  predicate MissingRequired(body: Body) {
    || !Truthy(Get(body, "language"))
    || Nullish(Get(body, "startedAt"))
    || Nullish(Get(body, "endedAt"))
    || Nullish(Get(body, "durationSeconds"))
    || Nullish(Get(body, "charactersTyped"))
    || Nullish(Get(body, "charactersCorrect"))
    || Nullish(Get(body, "accuracyPercent"))
  }

  /** The guard fails exactly when the language is falsy or some required property is nullish. */
  lemma MissingRequiredMeans(body: Body)
    ensures MissingRequired(body) <==>
              !Truthy(Get(body, "language")) || exists i :: 0 <= i < |RequiredFields| && Nullish(Get(body, RequiredFields[i]))
  {
    if !MissingRequired(body) {
      forall i | 0 <= i < |RequiredFields|
        ensures !Nullish(Get(body, RequiredFields[i]))
      {
      }
    } else if Truthy(Get(body, "language")) {
      var i := if Nullish(Get(body, "startedAt")) then 0
               else if Nullish(Get(body, "endedAt")) then 1
               else if Nullish(Get(body, "durationSeconds")) then 2
               else if Nullish(Get(body, "charactersTyped")) then 3
               else if Nullish(Get(body, "charactersCorrect")) then 4
               else 5;
      assert Nullish(Get(body, RequiredFields[i]));
    }
  }

  /**
   * The argument of `createCodingPracticeSession`. The `String`, `Number`
   * and `new Date` conversions are not modelled: values pass through as sent.
   */
  datatype PracticeInput = PracticeInput(
    language: Value,
    snippetId: Value,
    startedAt: Value,
    endedAt: Value,
    durationSeconds: Value,
    charactersTyped: Value,
    charactersCorrect: Value,
    wpm: Value,
    accuracyPercent: Value,
    sessionId: Value)

  /** `v != null ? v : undefined`, which is also `v ?? undefined`. */
  function Present(v: Value): (r: Value)
    ensures Nullish(v) ==> r == Undefined
    ensures !Nullish(v) ==> r == v
  {
    if Nullish(v) then Undefined else v
  }

  function ToInput(body: Body): PracticeInput {
    PracticeInput(
      Get(body, "language"),
      Coalesce(Get(body, "snippetId"), Undefined),
      Get(body, "startedAt"),
      Get(body, "endedAt"),
      Get(body, "durationSeconds"),
      Get(body, "charactersTyped"),
      Get(body, "charactersCorrect"),
      Present(Get(body, "wpm")),
      Get(body, "accuracyPercent"),
      Coalesce(Get(body, "sessionId"), Undefined))
  }

  /** The three optional properties: null becomes undefined, anything else is kept. */
  lemma OptionalFields(body: Body)
    ensures var input := ToInput(body);
            && input.snippetId == Present(Get(body, "snippetId"))
            && input.wpm == Present(Get(body, "wpm"))
            && input.sessionId == Present(Get(body, "sessionId"))
            && input.snippetId != Null && input.wpm != Null && input.sessionId != Null
  {
  }

  /**
   * `createCodingPracticeSession` as far as this handler sees it: without a
   * signed-in user it throws `Not authenticated`; otherwise it writes the
   * input, where a falsy `wpm` or `sessionId` is left out, and returns what
   * the database `create` returned (`created`).
   */
  function CreateCodingPracticeSession(userId: Option<string>, input: PracticeInput, created: Outcome<Value>): (r: (Outcome<Value>, Option<PracticeInput>))
    ensures r.1.None? <==> userId.None? || userId.value == ""
    ensures r.1.None? ==> r.0 == Threw(Error(NotAuthenticated, None))
    ensures r.1.Some? ==> r.0 == created
  {
    if userId.None? || userId.value == "" then (Threw(Error(NotAuthenticated, None)), None)
    else
      var data := input.(wpm := if Truthy(input.wpm) then input.wpm else Undefined,
                         sessionId := if Truthy(input.sessionId) then input.sessionId else Undefined);
      (created, Some(data))
  }

  /** A words-per-minute of zero passes the handler but is not written: the store checks truthiness. */
  lemma ZeroWpmNotStored(userId: string, input: PracticeInput, created: Outcome<Value>)
    requires userId != "" && input.wpm == Number(0.0)
    ensures CreateCodingPracticeSession(Some(userId), input, created).1.value.wpm == Undefined
  {
  }

  datatype Reply =
    | ErrorReply(error: string)
    | SessionReply(session: Value)

  datatype Response = Response(status: int, reply: Reply)

  /** What the handler answers, and what was written to the database, if anything. */
  datatype Handled = Handled(response: Response, stored: Option<PracticeInput>)

  /** The `catch`: `Not authenticated` is 401, any other `Error` is 500 with its message, anything else 500. */
  function ErrorResponse(err: Thrown): (r: Response)
    ensures r.status == 401 <==> err.Error? && err.message == NotAuthenticated
    ensures r.status != 401 ==> r.status == 500
    ensures r.status == 401 ==> r.reply == ErrorReply("Unauthorized")
    ensures err.Error? && err.message != NotAuthenticated ==> r.reply == ErrorReply(err.message)
    ensures err.NonError? ==> r.reply == ErrorReply(InternalError)
  {
    if err.Error? && err.message == NotAuthenticated then Response(401, ErrorReply("Unauthorized"))
    else Response(500, ErrorReply(if err.Error? then err.message else InternalError))
  }

  /**
   * The handler. `body` is the parsed body or what `req.json()` threw,
   * `userId` the signed-in user, and `created` what the database answered.
   */
  function Post(body: Outcome<Body>, userId: Option<string>, created: Outcome<Value>): Handled {
    if body.Threw? then Handled(ErrorResponse(body.thrown), None)
    else if MissingRequired(body.value) then Handled(Response(400, ErrorReply(MissingFieldsMessage)), None)
    else
      var (result, stored) := CreateCodingPracticeSession(userId, ToInput(body.value), created);
      match result
      case Done(session) => Handled(Response(201, SessionReply(session)), stored)
      case Threw(err) => Handled(ErrorResponse(err), stored)
  }

  /** A parsed body is refused with 400, and nothing stored, exactly when a required property is missing. */
  lemma MissingFieldsRefused(body: Body, userId: Option<string>, created: Outcome<Value>)
    ensures var h := Post(Done(body), userId, created);
            && (h.response.status == 400 <==> MissingRequired(body))
            && (MissingRequired(body) ==> h == Handled(Response(400, ErrorReply(MissingFieldsMessage)), None))
  {
  }

  /** Zero counts and an accuracy of zero are present values: such a session is accepted. */
  lemma ZeroValuesPass(language: string, stamp: string)
    requires language != ""
    ensures !MissingRequired(map["language" := Str(language), "startedAt" := Str(stamp), "endedAt" := Str(stamp),
                                 "durationSeconds" := Number(0.0), "charactersTyped" := Number(0.0),
                                 "charactersCorrect" := Number(0.0), "accuracyPercent" := Number(0.0)])
  {
  }

  /**
   * A complete body from a signed-in user is stored and answered with 201
   * when the database accepts it; without a user the answer is 401 and
   * nothing is stored.
   */
  lemma CompleteBodyOutcome(body: Body, userId: Option<string>, created: Outcome<Value>)
    requires !MissingRequired(body)
    ensures var h := Post(Done(body), userId, created);
            && (userId.None? ==> h == Handled(Response(401, ErrorReply("Unauthorized")), None))
            && (userId.Some? && userId.value != "" && created.Done? ==>
                  h.response == Response(201, SessionReply(created.value)) && h.stored.Some?)
            && (userId.Some? && userId.value != "" && created.Threw? ==> h.response == ErrorResponse(created.thrown))
  {
  }

  /** Apart from the two it drops, the stored session is the converted body. */
  lemma StoredIsConvertedBody(body: Body, userId: string, created: Outcome<Value>)
    requires !MissingRequired(body) && userId != ""
    ensures var s := Post(Done(body), Some(userId), created).stored.value;
            && s.(wpm := Undefined, sessionId := Undefined) == ToInput(body).(wpm := Undefined, sessionId := Undefined)
            && (Truthy(Get(body, "wpm")) ==> s.wpm == Get(body, "wpm"))
            && (Truthy(Get(body, "sessionId")) ==> s.sessionId == Get(body, "sessionId"))
  {
  }
}
