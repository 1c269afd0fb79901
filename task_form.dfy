/** The client-side task form of
    frontend/src/app/components/task-form/task-form.ts: the cross-field
    date validator, the list of persons selectable for the chosen team, and
    the clearing of the chosen person when the team changes. */
module TaskForm {

  import opened Common
  import opened Js
  import opened TaskModel

  /** The error records `taskDateValidator` returns. */
  datatype DateFormError = StartDateInvalid | StartDateFuture | EndDateInvalid | EndDateFuture | EndDateBeforeStart

  /** `taskDateValidator` at time `now`. A form date is `None` when its
      control value is empty (falsy), otherwise the `Date` built from it. */
  function TaskDateValidator(start: Option<DateVal>, end: Option<DateVal>, now: int): (e: Option<DateFormError>)
    ensures start.None? || start.value.Invalid? ==> e == Some(StartDateInvalid)
    ensures start.Some? && start.value.At? && start.value.ms > now ==> e == Some(StartDateFuture)
    ensures start.Some? && start.value.At? && start.value.ms <= now && end.Some? ==>
              && (end.value.Invalid? ==> e == Some(EndDateInvalid))
              && (end.value.At? && end.value.ms > now ==> e == Some(EndDateFuture))
              && (end.value.At? && end.value.ms <= now && end.value.ms < start.value.ms ==> e == Some(EndDateBeforeStart))
    // null exactly when every check passes
    ensures e.None? <==>
              && start.Some? && start.value.At? && start.value.ms <= now
              && (end.Some? ==> end.value.At? && start.value.ms <= end.value.ms <= now)
  {
    if start.None? || start.value.Invalid? then Some(StartDateInvalid)
    else if start.value.ms > now then Some(StartDateFuture)
    else if end.Some? then
      if end.value.Invalid? then Some(EndDateInvalid)
      else if end.value.ms > now then Some(EndDateFuture)
      else if end.value.ms < start.value.ms then Some(EndDateBeforeStart)
      else None
    else None
  }

  /** The client and the server accept the same date pairs: the validator
      passes exactly when the `Task` constructor's date checks do, and a
      form without a start date never passes. */
  lemma ValidatorAgreesWithServer(start: Option<DateVal>, end: Option<DateVal>, now: int)
    ensures start.None? ==> TaskDateValidator(start, end, now).Some?
    ensures start.Some? ==>
              (TaskDateValidator(start, end, now).None? <==> DateError(start.value, end, now).None?)
  {
  }

  /** With well-formed name and ids, the server creates the task exactly
      when the client's validator lets the form through. */
  lemma ValidFormIsAccepted(name: JsValue, teamId: JsValue, personId: JsValue, start: DateVal, end: Option<DateVal>, now: int)
    requires NameOk(name) && IdOk(teamId) && IdOk(personId)
    ensures NewTask(name, teamId, personId, start, end, now).Ok? <==> TaskDateValidator(Some(start), end, now).None?
  {
    ValidatorAgreesWithServer(Some(start), end, now);
  }

  /** Only the precedence of the errors differs: a start date in the future
      together with an invalid end date is reported as a future start by the
      client and as a bad end date by the server. */
  lemma ErrorPrecedenceDiffers()
    ensures TaskDateValidator(Some(At(2)), Some(Invalid), 1) == Some(StartDateFuture)
    ensures DateError(At(2), Some(Invalid), 1) == Some(EndInvalid)
  {
  }

  // ---------------------------------------------------------------------
  // Persons of the chosen team
  // ---------------------------------------------------------------------

  /** A person of the persons list: its id and the ids of its
      `team_objects`, `None` when that field is absent. */
  datatype Person = Person(id: int, teamIds: Option<seq<int>>)

  /** `person.team_objects?.some(team => team.id === teamId)`. */
  predicate InTeam(p: Person, teamId: int)
  {
    p.teamIds.Some? && teamId in p.teamIds.value
  }

  /** `a` is `b` with some elements left out, the rest in their order. */
  predicate SubsequenceOf<T(==)>(a: seq<T>, b: seq<T>)
    decreases |b|
  {
    if a == [] then true
    else if b == [] then false
    else (a[0] == b[0] && SubsequenceOf(a[1..], b[1..])) || SubsequenceOf(a, b[1..])
  }

  /** `persons.filter(person => InTeam(person, teamId))`. */
  function PersonsInTeam(persons: seq<Person>, teamId: int): (r: seq<Person>)
    ensures forall p :: p in r <==> p in persons && InTeam(p, teamId)
    ensures SubsequenceOf(r, persons)
    // every occurrence of a member is kept, repeated entries included
    ensures forall p :: multiset(r)[p] == if InTeam(p, teamId) then multiset(persons)[p] else 0
  {
    if persons == [] then []
    else
      assert persons == [persons[0]] + persons[1..];
      if InTeam(persons[0], teamId) then [persons[0]] + PersonsInTeam(persons[1..], teamId)
      else PersonsInTeam(persons[1..], teamId)
  }

  /** The value `updateTeamPersons(teamId)` assigns: nobody for a null or
      zero team id, otherwise the persons of that team in list order. */
  function TeamPersons(persons: seq<Person>, teamId: Option<int>): (r: seq<Person>)
    ensures teamId.None? || teamId.value == 0 ==> r == []
    ensures forall p :: p in r <==> teamId.Some? && teamId.value != 0 && p in persons && InTeam(p, teamId.value)
    ensures SubsequenceOf(r, persons)
    ensures forall p :: multiset(r)[p] ==
              if teamId.Some? && teamId.value != 0 && InTeam(p, teamId.value) then multiset(persons)[p] else 0
  {
    if teamId.None? || teamId.value == 0 then [] else PersonsInTeam(persons, teamId.value)
  }

  /** `teamPersons.some(p => p.id === personId)`. */
  predicate Lists(teamPersons: seq<Person>, personId: int)
  {
    exists k :: 0 <= k < |teamPersons| && teamPersons[k].id == personId
  }

  /** The person control is empty (null or 0) or holds one of the listed
      persons. */
  predicate PersonSelectable(teamPersons: seq<Person>, personId: Option<int>)
  {
    personId.None? || personId.value == 0 || Lists(teamPersons, personId.value)
  }

  /** The part of the form state the team subscription touches. */
  class TaskFormState {
    var persons: seq<Person>
    var teamPersons: seq<Person>
    var personId: Option<int>

    constructor ()
      ensures persons == [] && teamPersons == [] && personId.None?
    {
      persons := [];
      teamPersons := [];
      personId := None;
    }

    /** The persons-list reply of `ngOnInit`: store the list, then
        recompute the persons of the form's current team. */
    method LoadPersons(ps: seq<Person>, teamId: Option<int>)
      modifies this`persons, this`teamPersons
      ensures persons == ps && teamPersons == TeamPersons(ps, teamId)
    {
      persons := ps;
      UpdateTeamPersons(teamId);
    }

    /** `updateTeamPersons(teamId)`. */
    method UpdateTeamPersons(teamId: Option<int>)
      modifies this`teamPersons
      ensures teamPersons == TeamPersons(persons, teamId)
    {
      if teamId.None? || teamId.value == 0 {
        teamPersons := [];
        return;
      }
      teamPersons := PersonsInTeam(persons, teamId.value);
    }

    /** The `team_id` value-change subscription: recompute the team's
        persons, then clear the chosen person when it is set and not among
        them. */
    method OnTeamChange(teamId: Option<int>)
      modifies this`teamPersons, this`personId
      ensures teamPersons == TeamPersons(persons, teamId)
      ensures old(personId).Some? && old(personId).value != 0 && !Lists(teamPersons, old(personId).value) ==>
                personId.None?
      ensures !(old(personId).Some? && old(personId).value != 0 && !Lists(teamPersons, old(personId).value)) ==>
                personId == old(personId)
      ensures PersonSelectable(teamPersons, personId)
    {
      UpdateTeamPersons(teamId);
      var current := personId;
      if current.Some? && current.value != 0 && !Lists(teamPersons, current.value) {
        personId := None;
      }
    }
  }

  /** Whoever stays selected after a team change is a member of the new
      team. */
  lemma SelectedPersonInTeam(persons: seq<Person>, teamId: Option<int>, personId: int)
    requires Lists(TeamPersons(persons, teamId), personId)
    ensures teamId.Some? && teamId.value != 0
    ensures exists p :: p in persons && p.id == personId && InTeam(p, teamId.value)
  {
    var k :| 0 <= k < |TeamPersons(persons, teamId)| && TeamPersons(persons, teamId)[k].id == personId;
    assert TeamPersons(persons, teamId)[k] in TeamPersons(persons, teamId);
  }
}
