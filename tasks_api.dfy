/** The task handlers of src/api/tasks.ts: the team filter of GET /, the
    query it builds, the rule that a task's responsible person belongs to
    its team, and the id checks of PUT / and DELETE /. The SQL itself runs
    in the database; here a table is the list of its rows. */
module TasksApi {

  import opened Common
  import opened Js
  import opened SqlText
  import opened TaskModel
  import opened Tables

  const NotInTeam: string := "Responsible person must belong to assigned team"
  const IdInvalid: string := "ID was not provided correctly"
  const UpdateNotFound: string := "Task to update not found"
  const DeleteNotFound: string := "Task to delete not found"

  // ---------------------------------------------------------------------
  // The team filter
  // ---------------------------------------------------------------------

  /** `.filter(id => Number.isInteger(id) && id > 0)`. */
  function PositiveNums(nums: seq<Num>): (ids: seq<int>)
    ensures |ids| <= |nums|
    ensures forall k :: 0 <= k < |ids| ==> ids[k] > 0
  {
    if nums == [] then []
    else (if nums[0].Int? && nums[0].v > 0 then [nums[0].v] else []) + PositiveNums(nums[1..])
  }

  /** The team ids the pieces of a comma-separated filter yield:
      `.map(s => parseInt(s, 10))` and then the positive filter. */
  function PositiveIds(pieces: seq<string>): seq<int>
  {
    PositiveNums(Map(ParseInt, pieces))
  }

  /** The filter keeps exactly the positive integers among the parsed
      pieces. */
  lemma {:induction false} PositiveNumsMembers(nums: seq<Num>, x: int)
    ensures x in PositiveNums(nums) <==> x > 0 && Int(x) in nums
  {
    if nums != [] {
      PositiveNumsMembers(nums[1..], x);
      assert nums == [nums[0]] + nums[1..];
    }
  }

  /** The filter keeps the order of the pieces: the ids of a concatenation
      are the ids of each part, concatenated. */
  lemma {:induction false} PositiveNumsAppend(a: seq<Num>, b: seq<Num>)
    ensures PositiveNums(a + b) == PositiveNums(a) + PositiveNums(b)
  {
    if a != [] {
      PositiveNumsAppend(a[1..], b);
      assert (a + b)[1..] == a[1..] + b;
      assert (a + b)[0] == a[0];
    } else {
      assert a + b == b;
    }
  }

  /** A list of positive integers passes the filter unchanged. */
  lemma {:induction false} PositiveNumsKeepsPositive(ids: seq<int>)
    requires forall k :: 0 <= k < |ids| ==> ids[k] > 0
    ensures PositiveNums(seq(|ids|, k requires 0 <= k < |ids| => Int(ids[k]))) == ids
  {
    if ids != [] {
      var nums := seq(|ids|, k requires 0 <= k < |ids| => Int(ids[k]));
      PositiveNumsKeepsPositive(ids[1..]);
      assert nums[1..] == seq(|ids[1..]|, k requires 0 <= k < |ids[1..]| => Int(ids[1..][k]));
      assert ids == [ids[0]] + ids[1..];
    }
  }

  lemma PositiveIdsAppend(a: seq<string>, b: seq<string>)
    ensures PositiveIds(a + b) == PositiveIds(a) + PositiveIds(b)
  {
    MapAppend(ParseInt, a, b);
    PositiveNumsAppend(Map(ParseInt, a), Map(ParseInt, b));
  }

  /** `parseOptionalMultiTeamFilter(team_ids)`. */
  function ParseOptionalMultiTeamFilter(param: Option<string>): (ids: seq<int>)
    ensures param.None? || param.value == "" ==> ids == []
    ensures forall k :: 0 <= k < |ids| ==> ids[k] > 0
  {
    if param.None? || param.value == "" then [] else PositiveIds(Split(param.value, ','))
  }

  // ---------------------------------------------------------------------
  // GET /
  // ---------------------------------------------------------------------

  /** The free-text condition, present when `q` is truthy. */
  function SearchPart(searchConcat: string, q: Option<string>): seq<string>
  {
    if q.Some? && q.value != "" then [searchConcat + " LIKE ?"] else []
  }

  /** The team condition, present when some team id was selected. */
  function TeamPart(ids: seq<int>): seq<string>
  {
    if |ids| > 0 then [InList("tasks.team_id", |ids|)] else []
  }

  function IdParams(ids: seq<int>): (ps: seq<SqlParam>)
    ensures |ps| == |ids| && forall k :: 0 <= k < |ids| ==> ps[k] == PInt(ids[k])
  {
    seq(|ids|, k requires 0 <= k < |ids| => PInt(ids[k]))
  }

  /** The query text and parameters GET / sends to the database. `base` is
      the SELECT … JOIN text, `searchConcat` the concatenation of the
      searchable columns and `ncols` the number of columns of the tasks
      table definition, none of which is part of this model. */
  function TasksQuery(base: string, searchConcat: string, ncols: nat, q: Option<string>, teamIdsParam: Option<string>, orderParam: Option<string>)
    : (string, seq<SqlParam>)
  {
    var ids := ParseOptionalMultiTeamFilter(teamIdsParam);
    (base + WhereClause(SearchPart(searchConcat, q) + TeamPart(ids)) + OrderByClause(DecodeOrder(ParseParam(orderParam), ncols)),
     SearchParams(q) + IdParams(ids))
  }

  /** The query binds one parameter per placeholder: the LIKE pattern
      first, when there is a search, then the selected team ids in the
      order of the filter. */
  lemma TasksQueryPlaceholders(base: string, searchConcat: string, ncols: nat, q: Option<string>, teamIdsParam: Option<string>, orderParam: Option<string>)
    requires Count(base, '?') == 0 && Count(searchConcat, '?') == 0
    ensures Count(TasksQuery(base, searchConcat, ncols, q, teamIdsParam, orderParam).0, '?')
            == |TasksQuery(base, searchConcat, ncols, q, teamIdsParam, orderParam).1|
  {
    var ids := ParseOptionalMultiTeamFilter(teamIdsParam);
    QueryPlaceholders(base, searchConcat, q, ids, DecodeOrder(ParseParam(orderParam), ncols));
  }

  lemma QueryPlaceholders(base: string, searchConcat: string, q: Option<string>, ids: seq<int>, sort: Sort)
    requires Count(base, '?') == 0 && Count(searchConcat, '?') == 0
    ensures Count(base + WhereClause(SearchPart(searchConcat, q) + TeamPart(ids)) + OrderByClause(sort), '?')
            == |SearchParams(q) + IdParams(ids)|
  {
    var search := SearchPart(searchConcat, q);
    var parts := search + TeamPart(ids);
    SearchPartCount(searchConcat, q);
    TeamPartCount(ids);
    CountAllAppend(search, TeamPart(ids), '?');
    WhereClauseCount(parts);
    OrderByClauseCount(sort);
    CountAppend(base, WhereClause(parts), '?');
    CountAppend(base + WhereClause(parts), OrderByClause(sort), '?');
  }

  lemma SearchPartCount(searchConcat: string, q: Option<string>)
    requires Count(searchConcat, '?') == 0
    ensures CountAll(SearchPart(searchConcat, q), '?') == |SearchParams(q)|
  {
    var search := SearchPart(searchConcat, q);
    if search != [] {
      CountNone(" LIKE ", '?');
      CountAppend(searchConcat, " LIKE ", '?');
      CountAppend(searchConcat + " LIKE ", "?", '?');
      assert searchConcat + " LIKE ?" == searchConcat + " LIKE " + "?";
      assert search[1..] == [];
    }
  }

  lemma TeamPartCount(ids: seq<int>)
    ensures CountAll(TeamPart(ids), '?') == |IdParams(ids)|
  {
    if |ids| > 0 {
      var column := "tasks.team_id";
      NoPlaceholderIn(column);
      InListCount(column, |ids|);
      var parts := TeamPart(ids);
      assert parts == [InList(column, |ids|)];
      assert parts[1..] == [];
      assert CountAll(parts, '?') == Count(parts[0], '?') + CountAll(parts[1..], '?');
    }
  }

  lemma NoPlaceholderIn(column: string)
    requires column == "tasks.team_id"
    ensures Count(column, '?') == 0
  {
    CountNone(column, '?');
  }

  lemma {:induction false} CountAllAppend(a: seq<string>, b: seq<string>, c: char)
    ensures CountAll(a + b, c) == CountAll(a, c) + CountAll(b, c)
  {
    if a != [] {
      CountAllAppend(a[1..], b, c);
      assert (a + b)[1..] == a[1..] + b;
    } else {
      assert a + b == b;
    }
  }

  /** The GET / handler's query building, step by step as the handler
      appends to `query` and pushes to `whereParts` and `sqlParams`. */
  method ListTasksQuery(base: string, searchConcat: string, ncols: nat, q: Option<string>, teamIdsParam: Option<string>, orderParam: Option<string>)
    returns (query: string, sqlParams: seq<SqlParam>)
    ensures (query, sqlParams) == TasksQuery(base, searchConcat, ncols, q, teamIdsParam, orderParam)
    ensures Count(base, '?') == 0 && Count(searchConcat, '?') == 0 ==> Count(query, '?') == |sqlParams|
  {
    query := base;
    var selectedTeamIds := ParseOptionalMultiTeamFilter(teamIdsParam);
    var whereParts;
    whereParts, sqlParams := CollectConditions(searchConcat, q, selectedTeamIds);
    if |whereParts| > 0 {
      query := query + " WHERE " + Join(whereParts, " AND ");
    }
    assert query == base + WhereClause(whereParts);
    var order := ParseParam(orderParam);
    query := AppendOrderBy(query, order, ncols);
    if Count(base, '?') == 0 && Count(searchConcat, '?') == 0 {
      QueryPlaceholders(base, searchConcat, q, selectedTeamIds, DecodeOrder(order, ncols));
    }
  }

  /** The conditions and parameters the GET / handler collects: the search
      first, then the team filter. */
  method CollectConditions(searchConcat: string, q: Option<string>, selectedTeamIds: seq<int>)
    returns (whereParts: seq<string>, sqlParams: seq<SqlParam>)
    ensures whereParts == SearchPart(searchConcat, q) + TeamPart(selectedTeamIds)
    ensures sqlParams == SearchParams(q) + IdParams(selectedTeamIds)
  {
    whereParts := [];
    sqlParams := [];
    if q.Some? && q.value != "" {
      whereParts := whereParts + [searchConcat + " LIKE ?"];
      sqlParams := sqlParams + [PText(LikePattern(q.value))];
    }
    assert whereParts == SearchPart(searchConcat, q) && sqlParams == SearchParams(q);
    if |selectedTeamIds| > 0 {
      var inList := "tasks.team_id IN (" + Placeholders(|selectedTeamIds|) + ")";
      assert inList == InList("tasks.team_id", |selectedTeamIds|);
      whereParts := whereParts + [inList];
      sqlParams := sqlParams + IdParams(selectedTeamIds);
    }
  }

  // ---------------------------------------------------------------------
  // POST /, PUT /, DELETE /
  // ---------------------------------------------------------------------

  /** `ensureResponsiblePersonInTeam(personId, teamId)`. */
  function EnsureResponsiblePersonInTeam(memberships: seq<Membership>, personId: int, teamId: int): (e: Option<Failure>)
    ensures e.None? <==> IsMember(memberships, personId, teamId)
    ensures e.Some? ==> e.value == HttpError(400, NotInTeam)
  {
    if Membership(personId, teamId) in memberships then None else Some(HttpError(400, NotInTeam))
  }

  /** The fields of a task request body; the two dates are the `Date`s the
      handler builds from them (`new Date(start_date)`, and
      `end_date ? new Date(end_date) : null`). */
  datatype TaskBody = TaskBody(name: JsValue, teamId: JsValue, personId: JsValue, start: DateVal, end: Option<DateVal>)

  function Construct(body: TaskBody, now: int): Result<Task, Failure>
  {
    NewTask(body.name, body.teamId, body.personId, body.start, body.end, now)
  }

  /** POST /: the task to insert, or a 400 whose message starts
      "Cannot add task: ". */
  function CreateTask(body: TaskBody, memberships: seq<Membership>, now: int): (r: Result<Task, Failure>)
    ensures r.Ok? <==> Construct(body, now).Ok?
                        && IsMember(memberships, Construct(body, now).value.personId, Construct(body, now).value.teamId)
    ensures r.Ok? ==> r.value == Construct(body, now).value
    ensures Construct(body, now).Err? ==> r == Err(HttpError(400, "Cannot add task: " + MessageOf(Construct(body, now).error)))
    ensures Construct(body, now).Ok? && r.Err? ==> r == Err(HttpError(400, "Cannot add task: " + NotInTeam))
  {
    match Construct(body, now)
    case Err(e) => Err(HttpError(400, "Cannot add task: " + MessageOf(e)))
    case Ok(task) =>
      match EnsureResponsiblePersonInTeam(memberships, task.personId, task.teamId)
      case Some(e) => Err(HttpError(400, "Cannot add task: " + MessageOf(e)))
      case None => Ok(task)
  }

  /** PUT /: the id must be a positive number before anything else; the
      updated task, or a 400 (a missing task's 404 is caught and rewrapped).
      `taskIds` are the ids of the stored tasks. */
  function UpdateTask(id: JsValue, body: TaskBody, memberships: seq<Membership>, taskIds: set<int>, now: int)
    : (r: Result<Task, Failure>)
    ensures !(id.JNum? && id.n > 0.0) ==> r == Err(HttpError(400, IdInvalid))
    ensures r.Err? ==> r.error.HttpError? && r.error.status == 400
    ensures r.Ok? <==> id.JNum? && id.n > 0.0 && CreateTask(body, memberships, now).Ok?
                       && IsInteger(id.n) && id.n.Floor in taskIds
    ensures r.Ok? ==> r.value == CreateTask(body, memberships, now).value.(id := id.n.Floor)
    ensures id.JNum? && id.n > 0.0 && CreateTask(body, memberships, now).Ok? && r.Err? ==>
              r == Err(HttpError(400, "Cannot update task: " + UpdateNotFound))
  {
    if !id.JNum? || id.n <= 0.0 then Err(HttpError(400, IdInvalid))
    else
      match Construct(body, now)
      case Err(e) => Err(HttpError(400, "Cannot update task: " + MessageOf(e)))
      case Ok(task) =>
        match EnsureResponsiblePersonInTeam(memberships, task.personId, task.teamId)
        case Some(e) => Err(HttpError(400, "Cannot update task: " + MessageOf(e)))
        case None =>
          // `UPDATE … WHERE id = ?` matches no row for a fractional id
          if IsInteger(id.n) && id.n.Floor in taskIds then Ok(task.(id := id.n.Floor))
          else Err(HttpError(400, "Cannot update task: " + UpdateNotFound))
  }

  /** DELETE /?id=…: the id of the deleted task, or a 404. */
  function DeleteTask(idParam: Option<string>, taskIds: set<int>): (r: Result<int, Failure>)
    ensures !(ParseParam(idParam).Int? && ParseParam(idParam).v > 0) ==> r == Err(HttpError(404, IdInvalid))
    ensures r.Ok? <==> ParseParam(idParam).Int? && ParseParam(idParam).v > 0 && ParseParam(idParam).v in taskIds
    ensures r.Ok? ==> r.value == ParseParam(idParam).v
    ensures r.Err? ==> r.error.HttpError? && r.error.status == 404
  {
    var id := ParseParam(idParam);
    if id.NaN? || id.v <= 0 then Err(HttpError(404, IdInvalid))
    else if id.v !in taskIds then Err(HttpError(404, DeleteNotFound))
    else Ok(id.v)
  }

  /** The tasks table after `UPDATE tasks SET … WHERE id = ?`: the row
      with that id takes the new team and person. */
  function UpdateRows(tasks: seq<TaskRow>, task: Task): (r: seq<TaskRow>)
    ensures |r| == |tasks|
    ensures forall k :: 0 <= k < |r| ==>
              r[k] == if tasks[k].id == task.id then TaskRow(task.id, task.teamId, task.personId) else tasks[k]
  {
    seq(|tasks|, k requires 0 <= k < |tasks| =>
      if tasks[k].id == task.id then TaskRow(task.id, task.teamId, task.personId) else tasks[k])
  }

  /** Creating a task keeps every task's person in the task's team: the new
      row passed the membership check. */
  lemma CreateKeepsCovered(tasks: seq<TaskRow>, memberships: seq<Membership>, body: TaskBody, now: int, newId: int)
    requires Covered(tasks, memberships)
    requires CreateTask(body, memberships, now).Ok?
    ensures var t := CreateTask(body, memberships, now).value;
            Covered(tasks + [TaskRow(newId, t.teamId, t.personId)], memberships)
  {
    var t := CreateTask(body, memberships, now).value;
    var rows := tasks + [TaskRow(newId, t.teamId, t.personId)];
    forall k | 0 <= k < |rows| ensures IsMember(memberships, rows[k].personId, rows[k].teamId) {
      if k < |tasks| {
        assert rows[k] == tasks[k];
      }
    }
  }

  /** So does updating one: the rewritten row passed the same check. */
  lemma UpdateKeepsCovered(tasks: seq<TaskRow>, memberships: seq<Membership>, id: JsValue, body: TaskBody, taskIds: set<int>, now: int)
    requires Covered(tasks, memberships)
    requires UpdateTask(id, body, memberships, taskIds, now).Ok?
    ensures Covered(UpdateRows(tasks, UpdateTask(id, body, memberships, taskIds, now).value), memberships)
  {
    var t := UpdateTask(id, body, memberships, taskIds, now).value;
    var rows := UpdateRows(tasks, t);
    forall k | 0 <= k < |rows| ensures IsMember(memberships, rows[k].personId, rows[k].teamId) {
      if tasks[k].id != t.id {
        assert IsMember(memberships, tasks[k].personId, tasks[k].teamId);
      }
    }
  }
}
