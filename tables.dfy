/** The rows of the relational tables the task and person handlers consult,
    reduced to the columns the consistency rules read. */
module Tables {

  /** A row of `tasks`. */
  datatype TaskRow = TaskRow(id: int, teamId: int, personId: int)

  /** A row of `memberships`: person `personId` belongs to team `teamId`. */
  datatype Membership = Membership(personId: int, teamId: int)

  /** `SELECT 1 FROM memberships WHERE person_id = ? AND team_id = ?` finds a row. */
  predicate IsMember(memberships: seq<Membership>, personId: int, teamId: int)
  {
    Membership(personId, teamId) in memberships
  }

  /** The rule both APIs keep: the responsible person of every task belongs
      to the task's team. */
  predicate Covered(tasks: seq<TaskRow>, memberships: seq<Membership>)
  {
    forall k :: 0 <= k < |tasks| ==> IsMember(memberships, tasks[k].personId, tasks[k].teamId)
  }
}
