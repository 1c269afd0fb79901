/** The tasks table component of
    frontend/src/app/components/tasks-table/tasks-table.ts: the signed
    column number it keeps in `order`, the reloads it asks for, and the
    role guard on the edit dialog. */
module TasksTableView {

  import opened Common
  import opened Js
  import opened SqlText
  import opened TasksService

  /** The order `onSortChange` leaves behind, or `None` when it returns
      early without reloading: a column that parses to NaN or 0 is ignored,
      `asc` and `desc` select the column with a sign, any other direction
      keeps the current order. */
  function NextOrder(order: int, active: string, direction: string): (r: Option<int>)
    ensures r.None? <==> ParseInt(active).NaN? || ParseInt(active).v == 0
    ensures r.Some? ==> r.value == if direction == "asc" then ParseInt(active).v
                                   else if direction == "desc" then -ParseInt(active).v
                                   else order
    ensures r.Some? && (direction == "asc" || direction == "desc") ==> r.value != 0
  {
    var columnNo := ParseInt(active);
    if columnNo.NaN? || columnNo.v == 0 then None
    else if direction == "asc" then Some(columnNo.v)
    else if direction == "desc" then Some(-columnNo.v)
    else Some(order)
  }

  /** A click on the header of column `c` (1 to `ncols`) makes the server
      sort by column `c`, ascending or descending as the header says. */
  lemma SortRoundTrip(order: int, filter: string, teamIds: seq<int>, c: int, direction: string, ncols: nat)
    requires 1 <= c <= ncols
    requires direction == "asc" || direction == "desc"
    ensures NextOrder(order, IntToString(c), direction).Some?
    ensures var sent := GetTasksParams(filter, NextOrder(order, IntToString(c), direction).value, teamIds);
            DecodeOrder(ParseParam(Lookup(sent, "order")), ncols) == if direction == "asc" then Asc(c) else Desc(c)
  {
    ParseIntOfIntToString(c);
  }

  /** `authService.isInRole(user, [0])`: a signed-in user with the admin
      role. */
  predicate IsAdmin(user: Option<User>)
  {
    user.Some? && HasAnyRole(user.value, [AdminRole])
  }

  class TasksTable {
    var filter: string
    var teamIds: seq<int>
    var order: int
    var user: Option<User>
    /** The parameters of every tasks request sent, in order. */
    ghost var requests: seq<Params>
    /** The rows (task ids, `None` for a new task) an edit dialog was opened
        for, in order. */
    ghost var dialogs: seq<Option<int>>

    constructor (filter0: string, teamIds0: seq<int>, user0: Option<User>)
      ensures filter == filter0 && teamIds == teamIds0 && user == user0
      ensures order == 1 && requests == [] && dialogs == []
    {
      filter := filter0;
      teamIds := teamIds0;
      user := user0;
      order := 1;
      requests := [];
      dialogs := [];
    }

    /** `loadData()`: one request with the current filter, order and teams
        (the reply is not part of this model). */
    method LoadData()
      modifies this`requests
      ensures requests == old(requests) + [GetTasksParams(filter, order, teamIds)]
    {
      requests := requests + [GetTasksParams(filter, order, teamIds)];
    }

    /** `onSortChange(sort)`. */
    method OnSortChange(active: string, direction: string)
      modifies this`order, this`requests
      ensures NextOrder(old(order), active, direction).None? ==> order == old(order) && requests == old(requests)
      ensures NextOrder(old(order), active, direction).Some? ==>
                && order == NextOrder(old(order), active, direction).value
                && requests == old(requests) + [GetTasksParams(filter, order, teamIds)]
    {
      var columnNo := ParseInt(active);
      if columnNo.NaN? || columnNo.v == 0 {
        return;
      }
      if direction == "asc" {
        order := columnNo.v;
      }
      if direction == "desc" {
        order := -columnNo.v;
      }
      LoadData();
    }

    /** `openDialog(row)`: only an admin gets the dialog. */
    method OpenDialog(row: Option<int>)
      modifies this`dialogs
      ensures dialogs == if IsAdmin(user) then old(dialogs) + [row] else old(dialogs)
    {
      if !IsAdmin(user) {
        return;
      }
      dialogs := dialogs + [row];
    }
  }
}
