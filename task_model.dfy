/** The server-side `Task` record of src/model/task.ts: its constructor
    validates the fields in a fixed order, throwing HTTP 400 at the first
    failing check, and normalises the name. */
module TaskModel {

  import opened Common
  import opened Js

  /** A JavaScript `Date`: an instant in milliseconds, or an invalid date
      (one whose `getTime()` is NaN). */
  datatype DateVal = Invalid | At(ms: int)

  /** A validated task; dates are instants in milliseconds. */
  datatype Task = Task(id: int, name: string, teamId: int, personId: int, startDate: int, endDate: Option<int>)

  const NameInvalid: string := "Name was not provided correctly"
  const TeamInvalid: string := "Team ID was not provided correctly"
  const PersonInvalid: string := "Person ID was not provided correctly"
  const StartInvalid: string := "Start date was not provided correctly"
  const EndInvalid: string := "End date was not provided correctly"
  const StartInFuture: string := "Start date cannot be in the future"

  /** The name check: a non-empty string that is not all white space. */
  predicate NameOk(name: JsValue)
  {
    name.JStr? && Trim(name.s) != ""
  }

  /** The id checks: a number that is a positive integer. */
  predicate IdOk(id: JsValue)
  {
    id.JNum? && IsInteger(id.n) && id.n > 0.0
  }

  /** The date checks the constructor makes, in its order, with their
      messages: start validity, end validity, start not in the future, end
      not in the future and not before the start. */
  function DateError(start: DateVal, end: Option<DateVal>, now: int): (e: Option<string>)
    ensures e.None? <==>
              && start.At? && start.ms <= now
              && (end.Some? ==> end.value.At? && start.ms <= end.value.ms <= now)
  {
    if start.Invalid? then Some(StartInvalid)
    else if end.Some? && end.value.Invalid? then Some(EndInvalid)
    else if start.ms > now then Some(StartInFuture)
    else if end.Some? && (end.value.ms > now || end.value.ms < start.ms) then Some(EndInvalid)
    else None
  }

  /** `new Task(name, team_id, person_id, start_date, end_date)` at time
      `now`: the task, or the 400 error of the first check that fails. */
  function NewTask(name: JsValue, teamId: JsValue, personId: JsValue, start: DateVal, end: Option<DateVal>, now: int)
    : (r: Result<Task, Failure>)
    // the checks, in order; the first that fails decides the message
    ensures !NameOk(name) ==> r == Err(HttpError(400, NameInvalid))
    ensures NameOk(name) && !IdOk(teamId) ==> r == Err(HttpError(400, TeamInvalid))
    ensures NameOk(name) && IdOk(teamId) && !IdOk(personId) ==> r == Err(HttpError(400, PersonInvalid))
    ensures NameOk(name) && IdOk(teamId) && IdOk(personId) && DateError(start, end, now).Some? ==>
              r == Err(HttpError(400, DateError(start, end, now).value))
    // every failure is a 400
    ensures r.Err? ==> r.error.HttpError? && r.error.status == 400
    // success: id 0, trimmed name, the other fields as given
    ensures r.Ok? <==> NameOk(name) && IdOk(teamId) && IdOk(personId) && DateError(start, end, now).None?
    ensures r.Ok? ==>
              && r.value.id == 0
              && r.value.name == Trim(name.s) && r.value.name != "" && IsTrimmed(r.value.name)
              && r.value.teamId as real == teamId.n && r.value.teamId > 0
              && r.value.personId as real == personId.n && r.value.personId > 0
              && start == At(r.value.startDate)
              && (r.value.endDate.None? <==> end.None?)
              && (end.Some? ==> end.value == At(r.value.endDate.value))
              && r.value.startDate <= now
              && (r.value.endDate.Some? ==> r.value.startDate <= r.value.endDate.value <= now)
  {
    if !Truthy(name) || !name.JStr? || Trim(name.s) == "" then
      Err(HttpError(400, NameInvalid))
    else if !(teamId.JNum? && IsInteger(teamId.n)) || teamId.n <= 0.0 then
      Err(HttpError(400, TeamInvalid))
    else if !(personId.JNum? && IsInteger(personId.n)) || personId.n <= 0.0 then
      Err(HttpError(400, PersonInvalid))
    else if DateError(start, end, now).Some? then
      Err(HttpError(400, DateError(start, end, now).value))
    else
      TrimIsTrimmed(name.s);
      Ok(Task(0, Trim(name.s), teamId.n.Floor, personId.n.Floor, start.ms,
              if end.Some? then Some(end.value.ms) else None))
  }
}
