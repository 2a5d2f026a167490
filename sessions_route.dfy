/**
 * `POST /api/sessions`: starts a study session. The row inserted into
 * `study_sessions` is built from the request body with `??` defaults; the
 * owner is always the signed-in user.
 */
module SessionsRoute {
  import opened Js

  /** The columns of a new `study_sessions` row. */
  datatype SessionRow = SessionRow(
    userId: string,
    startedAt: Value,
    plannedMinutes: Value,
    moodAtStart: Value,
    taskType: Value,
    taskId: Value,
    notes: Value)

  /** `values[0] ?? values[1] ?? ... ?? fallback`: the first of `values` that is neither `null` nor `undefined`, else `fallback`. */
  function FirstPresent(values: seq<Value>, fallback: Value): (r: Value)
    ensures r == fallback || r in values
    ensures r != fallback ==> !Nullish(r)
    ensures forall j :: 0 <= j < |values| && !Nullish(values[j]) && (forall k :: 0 <= k < j ==> Nullish(values[k]))
                        ==> r == values[j]
    ensures (forall k :: 0 <= k < |values| ==> Nullish(values[k])) ==> r == fallback
  {
    if values == [] then fallback
    else if !Nullish(values[0]) then values[0]
    else FirstPresent(values[1..], fallback)
  }

  /** The body properties the handler reads. */
  const ReadKeys: set<string> :=
    {"started_at", "time_allocated", "planned_minutes", "mood", "mood_at_start", "task_type", "task_id",
     "task_description", "notes"}

  /** `sessionRow`: `now` is the ISO text of the current time. */
  function BuildSessionRow(userId: string, body: Body, now: string): SessionRow {
    SessionRow(
      userId,
      Coalesce(Get(body, "started_at"), Str(now)),
      Coalesce(Coalesce(Get(body, "time_allocated"), Get(body, "planned_minutes")), Number(30.0)),
      Coalesce(Coalesce(Get(body, "mood"), Get(body, "mood_at_start")), Str("moderate")),
      Coalesce(Get(body, "task_type"), Str("general_study")),
      Coalesce(Get(body, "task_id"), Null),
      Coalesce(Coalesce(Get(body, "task_description"), Get(body, "notes")), Null))
  }

  datatype Reply =
    | ErrorReply(error: Option<string>)   // `error.message`, dropped from the JSON when undefined
    | SessionReply(session: Value)

  datatype Response = Response(status: int, reply: Reply)

  /** What the handler answers, and the row it asked the database to insert, if any. */
  datatype Handled = Handled(response: Response, inserted: Option<SessionRow>)

  /** `error.message` of whatever reached the `catch`. */
  function ErrorMessage(err: Thrown): Option<string> {
    match err
    case Error(m, _) => Some(m)
    case NonError(m, _) => m
  }

  /**
   * The handler. `user` is the signed-in user's id, `body` the parsed body
   * or what `req.json()` threw, `now` the current time, and `insert` what
   * the database answered to the insert: the stored row or its error.
   */
  function Post(user: Option<string>, body: Outcome<Body>, now: string, insert: Outcome<Value>): Handled {
    if user.None? then Handled(Response(401, ErrorReply(Some("Unauthorized"))), None)
    else if body.Threw? then Handled(Response(500, ErrorReply(ErrorMessage(body.thrown))), None)
    else
      var row := BuildSessionRow(user.value, body.value, now);
      match insert
      case Done(data) => Handled(Response(201, SessionReply(data)), Some(row))
      case Threw(err) => Handled(Response(500, ErrorReply(ErrorMessage(err))), Some(row))
  }

  /** Without a signed-in user the answer is 401 and nothing is inserted. */
  lemma UnauthorizedInsertsNothing(body: Outcome<Body>, now: string, insert: Outcome<Value>)
    ensures Post(None, body, now, insert) == Handled(Response(401, ErrorReply(Some("Unauthorized"))), None)
  {
  }

  /**
   * Every column is the first of its body properties that is neither null
   * nor undefined, in the order the handler lists them, or its default.
   */
  lemma SessionRowDefaults(userId: string, body: Body, now: string)
    ensures var row := BuildSessionRow(userId, body, now);
            && row.startedAt == FirstPresent([Get(body, "started_at")], Str(now))
            && row.plannedMinutes == FirstPresent([Get(body, "time_allocated"), Get(body, "planned_minutes")], Number(30.0))
            && row.moodAtStart == FirstPresent([Get(body, "mood"), Get(body, "mood_at_start")], Str("moderate"))
            && row.taskType == FirstPresent([Get(body, "task_type")], Str("general_study"))
            && row.taskId == FirstPresent([Get(body, "task_id")], Null)
            && row.notes == FirstPresent([Get(body, "task_description"), Get(body, "notes")], Null)
  {
  }

  /** Falsy values that are not nullish are kept: a planned length of 0 is not replaced by 30. */
  lemma ZeroMinutesKept(userId: string, body: Body, now: string)
    requires Get(body, "time_allocated") == Number(0.0)
    ensures BuildSessionRow(userId, body, now).plannedMinutes == Number(0.0)
  {
  }

  /** A body with none of the properties gives the defaults. */
  lemma EmptyBodyDefaults(userId: string, now: string)
    ensures BuildSessionRow(userId, map[], now)
            == SessionRow(userId, Str(now), Number(30.0), Str("moderate"), Str("general_study"), Null, Null)
  {
  }

  /**
   * The row belongs to the signed-in user, and properties the handler does
   * not read, such as a `user_id` in the body, do not change it.
   */
  lemma RowIgnoresUnreadProperties(userId: string, body: Body, now: string, key: string, v: Value)
    requires key !in ReadKeys
    ensures BuildSessionRow(userId, body[key := v], now) == BuildSessionRow(userId, body, now)
    ensures BuildSessionRow(userId, body, now).userId == userId
  {
    var b := body[key := v];
    forall k | k in ReadKeys
      ensures Get(b, k) == Get(body, k)
    {
    }
  }

  /** A signed-in request inserts the built row; 201 with the stored row on success, 500 with the error's message otherwise. */
  lemma InsertOutcome(userId: string, body: Body, now: string, insert: Outcome<Value>)
    ensures var h := Post(Some(userId), Done(body), now, insert);
            && h.inserted == Some(BuildSessionRow(userId, body, now))
            && (insert.Done? ==> h.response == Response(201, SessionReply(insert.value)))
            && (insert.Threw? ==> h.response == Response(500, ErrorReply(ErrorMessage(insert.thrown))))
  {
  }
}
