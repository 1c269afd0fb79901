/** The person handlers of src/api/persons.ts: the rule that a person keeps
    every team they are responsible for tasks in (`ensureTaskConsistency`),
    the replacement of one person's memberships (`setMembership`), the id
    checks of PUT / and DELETE /, and the query GET / builds. The tables are
    lists of rows; a transaction that rolls back leaves them as they were. */
module PersonsApi {

  import opened Common
  import opened Js
  import opened SqlText
  import opened Tables

  const IdInvalid: string := "ID was not provided correctly"
  const Inconsistent: string := "Cannot remove a team assignment while the person is responsible for tasks in that team"
  const UpdateNotFound: string := "Person to update not found"
  const DeleteInvalid: string := "Cannot delete person"
  const DeleteNotFound: string := "Person to delete not found"

  /** `Array.isArray(team_ids) ? team_ids : []`. */
  function TeamIdsOf(v: JsValue): seq<int>
  {
    if v.JArray? then v.elems else []
  }

  // ---------------------------------------------------------------------
  // ensureTaskConsistency
  // ---------------------------------------------------------------------

  /** The rows the consistency query returns: with team ids, the person's
      tasks whose team is `NOT IN` them; without, all the person's tasks. */
  function BlockedTasks(tasks: seq<TaskRow>, personId: int, nextTeamIds: seq<int>): (r: seq<TaskRow>)
    ensures forall t :: t in r <==> t in tasks && t.personId == personId && t.teamId !in nextTeamIds
  {
    if tasks == [] then []
    else
      var t := tasks[0];
      var selected := if |nextTeamIds| > 0 then t.personId == personId && t.teamId !in nextTeamIds
                      else t.personId == personId;
      (if selected then [t] else []) + BlockedTasks(tasks[1..], personId, nextTeamIds)
  }

  /** `ensureTaskConsistency(personId, nextTeamIds)`: a 400 exactly when the
      person is responsible for a task in a team outside the new list (so,
      with an empty list, for any task at all). */
  function EnsureTaskConsistency(tasks: seq<TaskRow>, personId: int, nextTeamIds: seq<int>): (e: Option<Failure>)
    ensures e.None? <==> forall k :: 0 <= k < |tasks| && tasks[k].personId == personId ==> tasks[k].teamId in nextTeamIds
    ensures nextTeamIds == [] ==> (e.None? <==> forall k :: 0 <= k < |tasks| ==> tasks[k].personId != personId)
    ensures e.Some? ==> e.value == HttpError(400, Inconsistent)
  {
    var blocked := BlockedTasks(tasks, personId, nextTeamIds);
    assert blocked != [] ==> blocked[0] in blocked;
    assert forall k :: 0 <= k < |tasks| && tasks[k].personId == personId && tasks[k].teamId !in nextTeamIds ==>
             tasks[k] in blocked;
    if |blocked| > 0 then Some(HttpError(400, Inconsistent)) else None
  }

  // ---------------------------------------------------------------------
  // setMembership
  // ---------------------------------------------------------------------

  /** `memberships` after `DELETE FROM memberships WHERE person_id = ?`. */
  function WithoutPerson(ms: seq<Membership>, personId: int): (r: seq<Membership>)
    ensures forall m :: m in r <==> m in ms && m.personId != personId
  {
    if ms == [] then []
    else (if ms[0].personId != personId then [ms[0]] else []) + WithoutPerson(ms[1..], personId)
  }

  /** The rows the insert loop adds, one per team id, in order. */
  function MembershipRows(personId: int, teamIds: seq<int>): seq<Membership>
  {
    seq(|teamIds|, k requires 0 <= k < |teamIds| => Membership(personId, teamIds[k]))
  }

  /** The teams of person `personId`, in table order. */
  function TeamsOf(ms: seq<Membership>, personId: int): seq<int>
  {
    if ms == [] then [] else (if ms[0].personId == personId then [ms[0].teamId] else []) + TeamsOf(ms[1..], personId)
  }

  /** The table `setMembership(personId, teamIds)` leaves behind: the person
      belongs to exactly the listed teams, everybody else to what they
      belonged to before. */
  function ReplaceMemberships(ms: seq<Membership>, personId: int, teamIds: seq<int>): (r: seq<Membership>)
    ensures forall p, t :: IsMember(r, p, t) <==> if p == personId then t in teamIds else IsMember(ms, p, t)
  {
    var rows := MembershipRows(personId, teamIds);
    assert forall t :: t in teamIds ==> Membership(personId, t) in rows by {
      forall t | t in teamIds ensures Membership(personId, t) in rows {
        var k :| 0 <= k < |teamIds| && teamIds[k] == t;
        assert rows[k] == Membership(personId, t);
      }
    }
    WithoutPerson(ms, personId) + rows
  }

  lemma {:induction false} TeamsOfAppend(a: seq<Membership>, b: seq<Membership>, p: int)
    ensures TeamsOf(a + b, p) == TeamsOf(a, p) + TeamsOf(b, p)
  {
    if a == [] {
      assert a + b == b;
    } else {
      TeamsOfAppend(a[1..], b, p);
      assert (a + b)[1..] == a[1..] + b;
    }
  }

  lemma {:induction false} TeamsOfWithout(ms: seq<Membership>, personId: int, p: int)
    ensures TeamsOf(WithoutPerson(ms, personId), p) == if p == personId then [] else TeamsOf(ms, p)
  {
    if ms != [] {
      TeamsOfWithout(ms[1..], personId, p);
      var head := if ms[0].personId != personId then [ms[0]] else [];
      TeamsOfAppend(head, WithoutPerson(ms[1..], personId), p);
    }
  }

  lemma {:induction false} TeamsOfRows(personId: int, teamIds: seq<int>, p: int)
    ensures TeamsOf(MembershipRows(personId, teamIds), p) == if p == personId then teamIds else []
  {
    if teamIds != [] {
      TeamsOfRows(personId, teamIds[1..], p);
      assert MembershipRows(personId, teamIds)[1..] == MembershipRows(personId, teamIds[1..]);
    }
  }

  /** After `setMembership(personId, teamIds)` the person's teams are
      exactly `teamIds`, in that order, and every other person's teams are
      unchanged. */
  lemma ReplaceMembershipsTeams(ms: seq<Membership>, personId: int, teamIds: seq<int>, p: int)
    ensures TeamsOf(ReplaceMemberships(ms, personId, teamIds), p) == if p == personId then teamIds else TeamsOf(ms, p)
  {
    TeamsOfAppend(WithoutPerson(ms, personId), MembershipRows(personId, teamIds), p);
    TeamsOfWithout(ms, personId, p);
    TeamsOfRows(personId, teamIds, p);
  }

  /** Replacing a person's teams keeps every task covered when none of the
      person's tasks is in a team outside the new list. */
  lemma ReplaceKeepsCovered(tasks: seq<TaskRow>, ms: seq<Membership>, personId: int, teamIds: seq<int>)
    requires Covered(tasks, ms)
    requires EnsureTaskConsistency(tasks, personId, teamIds).None?
    ensures Covered(tasks, ReplaceMemberships(ms, personId, teamIds))
  {
    var r := ReplaceMemberships(ms, personId, teamIds);
    forall k | 0 <= k < |tasks| ensures IsMember(r, tasks[k].personId, tasks[k].teamId) {
      assert IsMember(ms, tasks[k].personId, tasks[k].teamId);
    }
  }

  /** The broadcast `setMembership` and DELETE / send to both roles. */
  function MembershipBroadcast(personId: int, teamIds: seq<int>): Broadcast
  {
    Broadcast([AdminRole, UserRole], MembershipChanged(personId, teamIds))
  }

  // ---------------------------------------------------------------------
  // POST /, PUT /, DELETE /
  // ---------------------------------------------------------------------

  /** What SQLite answers a `ROLLBACK` when no transaction is open. */
  const NoTransactionActive: string := "cannot rollback - no transaction is active"

  /** Whether the handler's `BEGIN IMMEDIATE` transaction is still open. */
  datatype Txn = Open | Closed

  /** The `catch` of PUT / and DELETE /: `exec('ROLLBACK')`, then the thrown
      error rewrapped as a 400 after `prefix`. When the transaction is
      already closed, SQLite refuses the ROLLBACK and its error escapes in
      place of the rewrapped one. */
  function CatchRollback(txn: Txn, prefix: string, thrown: Failure): (f: Failure)
    ensures txn == Open ==> f == HttpError(400, prefix + MessageOf(thrown))
    ensures txn == Closed ==> f == Propagated(NoTransactionActive)
  {
    match txn
    case Open => HttpError(400, prefix + MessageOf(thrown))
    case Closed => Propagated(NoTransactionActive)
  }

  /** PUT / reaches its not-found branch: a valid body whose id names no
      person (a fractional id matches no task and no row). */
  predicate UpdateTargetMissing(persons: set<int>, tasks: seq<TaskRow>, id: JsValue, personError: Option<string>, teamIds: seq<int>)
  {
    && id.JNum? && id.n > 0.0 && personError.None?
    && (!IsInteger(id.n) || (EnsureTaskConsistency(tasks, id.n.Floor, teamIds).None? && id.n.Floor !in persons))
  }

  /** The reply of PUT / as written: the not-found branch rolls back and
      throws a 404, and the `catch` then rolls back a second time, with no
      transaction open. The reply differs from the intended one exactly
      there. */
  function UpdateOutcomeAsWritten(persons: set<int>, tasks: seq<TaskRow>, id: JsValue, personError: Option<string>, teamIds: seq<int>)
    : (r: Result<int, Failure>)
    ensures r == if UpdateTargetMissing(persons, tasks, id, personError, teamIds) then Err(Propagated(NoTransactionActive))
                 else UpdateOutcome(persons, tasks, id, personError, teamIds)
  {
    var prefix := "Cannot update person: ";
    if !id.JNum? || id.n <= 0.0 then Err(HttpError(400, IdInvalid))
    // from here on the handler runs inside BEGIN IMMEDIATE … catch
    else if personError.Some? then Err(CatchRollback(Open, prefix, HttpError(400, personError.value)))
    else if !IsInteger(id.n) then Err(CatchRollback(Closed, prefix, HttpError(404, UpdateNotFound)))
    else if EnsureTaskConsistency(tasks, id.n.Floor, teamIds).Some? then
      Err(CatchRollback(Open, prefix, EnsureTaskConsistency(tasks, id.n.Floor, teamIds).value))
    else if id.n.Floor !in persons then Err(CatchRollback(Closed, prefix, HttpError(404, UpdateNotFound)))
    else Ok(id.n.Floor)
  }

  /** Updating a person that does not exist answers with SQLite's ROLLBACK
      error, not with "Person to update not found". */
  lemma MissingPersonUpdateEscapes(persons: set<int>, tasks: seq<TaskRow>, id: nat, teamIds: seq<int>)
    requires id > 0 && id !in persons
    requires forall k :: 0 <= k < |tasks| ==> tasks[k].personId != id
    ensures UpdateOutcomeAsWritten(persons, tasks, JNum(id as real), None, teamIds) == Err(Propagated(NoTransactionActive))
    ensures UpdateOutcome(persons, tasks, JNum(id as real), None, teamIds)
            == Err(HttpError(400, "Cannot update person: " + UpdateNotFound))
  {
    assert (id as real).Floor == id;
    assert EnsureTaskConsistency(tasks, id, teamIds).None?;
  }

  /** The reply of PUT / the handler evidently intends, for a body whose
      `Person` constructor outcome is `personError` (the constructor is not
      part of this model) and whose team list is `teamIds`: the id of the
      updated person, or a 400. Every failure inside the transaction,
      not-found included, reaches the client through the `catch`. */
  function UpdateOutcome(persons: set<int>, tasks: seq<TaskRow>, id: JsValue, personError: Option<string>, teamIds: seq<int>)
    : (r: Result<int, Failure>)
    ensures !(id.JNum? && id.n > 0.0) ==> r == Err(HttpError(400, IdInvalid))
    ensures r.Err? ==> r.error.HttpError? && r.error.status == 400
    ensures r.Ok? <==> && id.JNum? && id.n > 0.0 && personError.None? && IsInteger(id.n)
                       && EnsureTaskConsistency(tasks, id.n.Floor, teamIds).None? && id.n.Floor in persons
    ensures r.Ok? ==> r.value as real == id.n
    // a person that does not exist is reported as a rewrapped 400
    ensures id.JNum? && id.n > 0.0 && personError.None? && IsInteger(id.n) && id.n.Floor !in persons
            && EnsureTaskConsistency(tasks, id.n.Floor, teamIds).None? ==>
              r == Err(HttpError(400, "Cannot update person: " + UpdateNotFound))
    ensures id.JNum? && id.n > 0.0 && personError.None? && IsInteger(id.n)
            && EnsureTaskConsistency(tasks, id.n.Floor, teamIds).Some? ==>
              r == Err(HttpError(400, "Cannot update person: " + Inconsistent))
  {
    if !id.JNum? || id.n <= 0.0 then Err(HttpError(400, IdInvalid))
    else if personError.Some? then Err(HttpError(400, "Cannot update person: " + personError.value))
    // a fractional id matches no task and no person row
    else if !IsInteger(id.n) then Err(HttpError(400, "Cannot update person: " + UpdateNotFound))
    else if EnsureTaskConsistency(tasks, id.n.Floor, teamIds).Some? then
      Err(HttpError(400, "Cannot update person: " + Inconsistent))
    else if id.n.Floor !in persons then Err(HttpError(400, "Cannot update person: " + UpdateNotFound))
    else Ok(id.n.Floor)
  }

  /** The reply of DELETE /?id=… as written: an unknown id takes the same
      double ROLLBACK path as PUT /. */
  function DeleteOutcomeAsWritten(persons: set<int>, idParam: Option<string>): (r: Result<int, Failure>)
    ensures r == if ParseParam(idParam).Int? && ParseParam(idParam).v > 0 && ParseParam(idParam).v !in persons
                 then Err(Propagated(NoTransactionActive))
                 else DeleteOutcome(persons, idParam)
  {
    var id := ParseParam(idParam);
    if id.NaN? || id.v <= 0 then Err(HttpError(400, DeleteInvalid))
    else if id.v !in persons then Err(CatchRollback(Closed, "Cannot delete person: ", HttpError(404, DeleteNotFound)))
    else Ok(id.v)
  }

  /** `DELETE /api/persons?id=<n>` for an unknown positive `n` answers with
      SQLite's ROLLBACK error. */
  lemma MissingPersonDeleteEscapes(persons: set<int>, n: int)
    requires n > 0 && n !in persons
    ensures DeleteOutcomeAsWritten(persons, Some(IntToString(n))) == Err(Propagated(NoTransactionActive))
    ensures DeleteOutcome(persons, Some(IntToString(n))) == Err(HttpError(400, "Cannot delete person: " + DeleteNotFound))
  {
    ParseIntOfIntToString(n);
  }

  /** The reply of DELETE /?id=… the handler evidently intends: the id of
      the deleted person, or a 400. */
  function DeleteOutcome(persons: set<int>, idParam: Option<string>): (r: Result<int, Failure>)
    ensures !(ParseParam(idParam).Int? && ParseParam(idParam).v > 0) ==> r == Err(HttpError(400, DeleteInvalid))
    ensures r.Ok? <==> ParseParam(idParam).Int? && ParseParam(idParam).v > 0 && ParseParam(idParam).v in persons
    ensures r.Ok? ==> r.value == ParseParam(idParam).v
    ensures ParseParam(idParam).Int? && ParseParam(idParam).v > 0 && r.Err? ==>
              r == Err(HttpError(400, "Cannot delete person: " + DeleteNotFound))
  {
    var id := ParseParam(idParam);
    if id.NaN? || id.v <= 0 then Err(HttpError(400, DeleteInvalid))
    else if id.v !in persons then Err(HttpError(400, "Cannot delete person: " + DeleteNotFound))
    else Ok(id.v)
  }

  /** The persons, tasks and memberships tables, and the broadcasts sent. */
  class PersonsStore {
    var persons: set<int>
    var tasks: seq<TaskRow>
    var memberships: seq<Membership>
    ghost var broadcasts: seq<Broadcast>

    /** Every task's responsible person belongs to the task's team. */
    predicate Consistent()
      reads this
    {
      Covered(tasks, memberships)
    }

    constructor (persons0: set<int>, tasks0: seq<TaskRow>, memberships0: seq<Membership>)
      ensures persons == persons0 && tasks == tasks0 && memberships == memberships0 && broadcasts == []
    {
      persons := persons0;
      tasks := tasks0;
      memberships := memberships0;
      broadcasts := [];
    }

    /** `setMembership(personId, teamIds)`: one delete, then one insert per
        team id, then the broadcast. */
    method SetMembership(personId: int, teamIds: seq<int>)
      modifies this`memberships, this`broadcasts
      ensures memberships == ReplaceMemberships(old(memberships), personId, teamIds)
      ensures broadcasts == old(broadcasts) + [MembershipBroadcast(personId, teamIds)]
    {
      memberships := WithoutPerson(memberships, personId);
      ghost var kept := memberships;
      for i := 0 to |teamIds|
        invariant memberships == kept + MembershipRows(personId, teamIds[..i])
        invariant broadcasts == old(broadcasts)
      {
        assert MembershipRows(personId, teamIds[..i + 1]) == MembershipRows(personId, teamIds[..i]) + [Membership(personId, teamIds[i])];
        memberships := memberships + [Membership(personId, teamIds[i])];
      }
      assert teamIds[..|teamIds|] == teamIds;
      broadcasts := broadcasts + [MembershipBroadcast(personId, teamIds)];
    }

    /** POST /: insert the person under the fresh id `newId` the database
        assigns, then set their memberships; on a constructor error nothing
        changes. */
    method CreatePerson(personError: Option<string>, teamIdsValue: JsValue, newId: int) returns (r: Result<int, Failure>)
      requires newId !in persons && forall k :: 0 <= k < |tasks| ==> tasks[k].personId != newId
      modifies this`persons, this`memberships, this`broadcasts
      ensures personError.Some? ==> r == Err(HttpError(400, "Cannot add person: " + personError.value))
      ensures personError.None? ==> r == Ok(newId)
      ensures r.Ok? ==> persons == old(persons) + {newId}
                        && memberships == ReplaceMemberships(old(memberships), newId, TeamIdsOf(teamIdsValue))
                        && broadcasts == old(broadcasts) + [MembershipBroadcast(newId, TeamIdsOf(teamIdsValue))]
      ensures r.Err? ==> persons == old(persons) && memberships == old(memberships) && broadcasts == old(broadcasts)
      ensures old(Consistent()) ==> Consistent()
    {
      if personError.Some? {
        return Err(HttpError(400, "Cannot add person: " + personError.value));
      }
      var teamIds := TeamIdsOf(teamIdsValue);
      persons := persons + {newId};
      if old(Consistent()) {
        ReplaceKeepsCovered(tasks, memberships, newId, teamIds);
      }
      SetMembership(newId, teamIds);
      r := Ok(newId);
    }

    /** PUT /: the id check, then the consistency check, then the update and
        the new memberships; every failure leaves the tables unchanged. */
    method UpdatePerson(id: JsValue, personError: Option<string>, teamIdsValue: JsValue) returns (r: Result<int, Failure>)
      modifies this`memberships, this`broadcasts
      ensures r == UpdateOutcome(persons, tasks, id, personError, TeamIdsOf(teamIdsValue))
      ensures r.Ok? ==> memberships == ReplaceMemberships(old(memberships), r.value, TeamIdsOf(teamIdsValue))
                        && broadcasts == old(broadcasts) + [MembershipBroadcast(r.value, TeamIdsOf(teamIdsValue))]
      ensures r.Err? ==> memberships == old(memberships) && broadcasts == old(broadcasts)
      ensures old(Consistent()) ==> Consistent()
    {
      if !id.JNum? || id.n <= 0.0 {
        return Err(HttpError(400, IdInvalid));
      }
      if personError.Some? {
        return Err(HttpError(400, "Cannot update person: " + personError.value));
      }
      var teamIds := TeamIdsOf(teamIdsValue);
      if !IsInteger(id.n) {
        return Err(HttpError(400, "Cannot update person: " + UpdateNotFound));
      }
      var personId := id.n.Floor;
      var blocked := EnsureTaskConsistency(tasks, personId, teamIds);
      if blocked.Some? {
        return Err(HttpError(400, "Cannot update person: " + MessageOf(blocked.value)));
      }
      if personId !in persons {
        return Err(HttpError(400, "Cannot update person: " + UpdateNotFound));
      }
      if old(Consistent()) {
        ReplaceKeepsCovered(tasks, memberships, personId, teamIds);
      }
      SetMembership(personId, teamIds);
      r := Ok(personId);
    }

    /** DELETE /: remove the person and announce that they belong to no team
        any more. */
    method DeletePerson(idParam: Option<string>) returns (r: Result<int, Failure>)
      modifies this`persons, this`broadcasts
      ensures r == DeleteOutcome(old(persons), idParam)
      ensures r.Ok? ==> persons == old(persons) - {r.value}
                        && broadcasts == old(broadcasts) + [MembershipBroadcast(r.value, [])]
      ensures r.Err? ==> persons == old(persons) && broadcasts == old(broadcasts)
    {
      var id := ParseParam(idParam);
      if id.NaN? || id.v <= 0 {
        return Err(HttpError(400, DeleteInvalid));
      }
      if id.v !in persons {
        return Err(HttpError(400, "Cannot delete person: " + DeleteNotFound));
      }
      persons := persons - {id.v};
      broadcasts := broadcasts + [MembershipBroadcast(id.v, [])];
      r := Ok(id.v);
    }
  }

  // ---------------------------------------------------------------------
  // GET /
  // ---------------------------------------------------------------------

  /** The search condition, present when `q` is truthy. */
  function SearchClause(searchConcat: string, q: Option<string>): string
  {
    if q.Some? && q.value != "" then " WHERE " + searchConcat + " LIKE ?" else ""
  }

  /** The LIMIT/OFFSET suffix: LIMIT for a positive `limit`, and OFFSET
      after it when `offset` is a number. */
  function PagingClause(limit: Num, offset: Num): string
  {
    if limit.Int? && limit.v > 0 then " LIMIT ?" + (if offset.Int? then " OFFSET ?" else "") else ""
  }

  /** The parameters bound to the LIMIT/OFFSET placeholders: LIMIT's
      first, OFFSET never without LIMIT. */
  function PagingParams(limit: Num, offset: Num): (ps: seq<SqlParam>)
    ensures ps != [] <==> limit.Int? && limit.v > 0
    ensures |ps| == 2 <==> limit.Int? && limit.v > 0 && offset.Int?
    ensures ps != [] ==> ps[0] == PInt(limit.v) && limit.v > 0
    ensures |ps| == 2 ==> ps[1] == PInt(offset.v)
  {
    if limit.Int? && limit.v > 0 then [PInt(limit.v)] + (if offset.Int? then [PInt(offset.v)] else []) else []
  }

  /** One parameter per LIMIT/OFFSET placeholder. */
  lemma PagingCount(limit: Num, offset: Num)
    ensures Count(PagingClause(limit, offset), '?') == |PagingParams(limit, offset)|
  {
    if limit.Int? && limit.v > 0 {
      CountNone(" LIMIT ", '?');
      CountAppend(" LIMIT ", "?", '?');
      assert Count(" LIMIT ?", '?') == 1;
      if offset.Int? {
        CountNone(" OFFSET ", '?');
        CountAppend(" OFFSET ", "?", '?');
        CountAppend(" LIMIT ?", " OFFSET ?", '?');
      } else {
        assert " LIMIT ?" + "" == " LIMIT ?";
      }
    }
  }

  /** The query text and parameters GET / sends (the COUNT queries for
      `total` and `filtered` aside). */
  function PersonsQuery(base: string, searchConcat: string, ncols: nat, q: Option<string>,
                        orderParam: Option<string>, limitParam: Option<string>, offsetParam: Option<string>)
    : (string, seq<SqlParam>)
  {
    var limit := ParseParam(limitParam);
    var offset := ParseParam(offsetParam);
    (base + SearchClause(searchConcat, q) + OrderByClause(DecodeOrder(ParseParam(orderParam), ncols)) + PagingClause(limit, offset),
     SearchParams(q) + PagingParams(limit, offset))
  }

  lemma SearchClauseCount(searchConcat: string, q: Option<string>)
    requires Count(searchConcat, '?') == 0
    ensures Count(SearchClause(searchConcat, q), '?') == |SearchParams(q)|
  {
    if q.Some? && q.value != "" {
      CountNone(" WHERE ", '?');
      CountNone(" LIKE ", '?');
      CountAppend(" WHERE ", searchConcat, '?');
      CountAppend(" WHERE " + searchConcat, " LIKE ", '?');
      CountAppend(" WHERE " + searchConcat + " LIKE ", "?", '?');
      assert " WHERE " + searchConcat + " LIKE ?" == " WHERE " + searchConcat + " LIKE " + "?";
    }
  }

  /** GET / binds one parameter per placeholder: the LIKE pattern, then
      LIMIT, then OFFSET. */
  lemma PersonsQueryPlaceholders(base: string, searchConcat: string, ncols: nat, q: Option<string>,
                                 orderParam: Option<string>, limitParam: Option<string>, offsetParam: Option<string>)
    requires Count(base, '?') == 0 && Count(searchConcat, '?') == 0
    ensures Count(PersonsQuery(base, searchConcat, ncols, q, orderParam, limitParam, offsetParam).0, '?')
            == |PersonsQuery(base, searchConcat, ncols, q, orderParam, limitParam, offsetParam).1|
  {
    var limit := ParseParam(limitParam);
    var offset := ParseParam(offsetParam);
    var sort := DecodeOrder(ParseParam(orderParam), ncols);
    SearchClauseCount(searchConcat, q);
    OrderByClauseCount(sort);
    PagingCount(limit, offset);
    CountAppend(base, SearchClause(searchConcat, q), '?');
    CountAppend(base + SearchClause(searchConcat, q), OrderByClause(sort), '?');
    CountAppend(base + SearchClause(searchConcat, q) + OrderByClause(sort), PagingClause(limit, offset), '?');
  }

  /** The LIMIT and OFFSET steps of GET /, as the handler appends them. */
  method AppendPaging(query: string, sqlParams: seq<SqlParam>, limit: Num, offset: Num)
    returns (paged: string, pagedParams: seq<SqlParam>)
    ensures paged == query + PagingClause(limit, offset)
    ensures pagedParams == sqlParams + PagingParams(limit, offset)
  {
    paged, pagedParams := query, sqlParams;
    if limit.Int? && limit.v > 0 {
      paged := paged + " LIMIT ?";
      pagedParams := pagedParams + [PInt(limit.v)];
    }
    if limit.Int? && limit.v > 0 && offset.Int? {
      paged := paged + " OFFSET ?";
      pagedParams := pagedParams + [PInt(offset.v)];
      AppendAssoc(query, " LIMIT ?", " OFFSET ?");
      assert pagedParams == sqlParams + ([PInt(limit.v)] + [PInt(offset.v)]);
    } else if limit.Int? && limit.v > 0 {
      assert " LIMIT ?" + "" == " LIMIT ?";
    } else {
      assert query + "" == query;
      assert sqlParams + [] == sqlParams;
    }
  }

  /** The GET / handler's query building, append by append. */
  method ListPersonsQuery(base: string, searchConcat: string, ncols: nat, q: Option<string>,
                          orderParam: Option<string>, limitParam: Option<string>, offsetParam: Option<string>)
    returns (query: string, sqlParams: seq<SqlParam>)
    ensures (query, sqlParams) == PersonsQuery(base, searchConcat, ncols, q, orderParam, limitParam, offsetParam)
    ensures Count(base, '?') == 0 && Count(searchConcat, '?') == 0 ==> Count(query, '?') == |sqlParams|
  {
    query := base;
    sqlParams := [];
    if q.Some? && q.value != "" {
      query := query + " WHERE " + searchConcat + " LIKE ?";
      sqlParams := sqlParams + [PText(LikePattern(q.value))];
      AppendAssoc(base + " WHERE ", searchConcat, " LIKE ?");
      AppendAssoc(base, " WHERE ", searchConcat + " LIKE ?");
    }
    assert query == base + SearchClause(searchConcat, q);
    assert sqlParams == SearchParams(q);
    query := AppendOrderBy(query, ParseParam(orderParam), ncols);
    var limit := ParseParam(limitParam);
    var offset := ParseParam(offsetParam);
    query, sqlParams := AppendPaging(query, sqlParams, limit, offset);
    if Count(base, '?') == 0 && Count(searchConcat, '?') == 0 {
      PersonsQueryPlaceholders(base, searchConcat, ncols, q, orderParam, limitParam, offsetParam);
    }
  }
}
