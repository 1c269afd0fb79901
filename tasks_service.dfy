/** The query parameters `TasksService.getTasks` of
    frontend/src/app/services/tasks.ts sends, and how the server reads them
    back. The HTTP transport is left out: a parameter arrives as the string
    it was set to. */
module TasksService {

  import opened Common
  import opened Js
  import opened SqlText
  import opened TasksApi

  /** The query parameters of a request, by name. */
  type Params = map<string, string>

  /** A parameter of the request as Express hands it over: absent, or its
      text. */
  function Lookup(params: Params, name: string): Option<string>
  {
    if name in params then Some(params[name]) else None
  }

  /** `getTasks(filter, order, teamIds)`: `q` and `order` always, `team_ids`
      (the ids joined with commas) only when some team is selected. */
  function GetTasksParams(filter: string, order: int, teamIds: seq<int>): (params: Params)
    ensures params.Keys == if |teamIds| > 0 then {"q", "order", "team_ids"} else {"q", "order"}
    ensures Lookup(params, "q") == Some(filter)
    // the server's `parseInt(order, 10)` reads back the number sent
    ensures ParseParam(Lookup(params, "order")) == Int(order)
  {
    ParseIntOfIntToString(order);
    var params := map["q" := filter, "order" := IntToString(order)];
    if |teamIds| > 0 then params["team_ids" := Join(IdStrings(teamIds), ",")] else params
  }

  /** `String(id)` for each id. */
  function IdStrings(ids: seq<int>): (strs: seq<string>)
    ensures |strs| == |ids| && forall k :: 0 <= k < |ids| ==> strs[k] == IntToString(ids[k])
  {
    seq(|ids|, k requires 0 <= k < |ids| => IntToString(ids[k]))
  }

  /** Positive ids render as digits only, so they hold no comma, and
      `parseInt` reads each back. */
  lemma PositiveIdsReadBack(ids: seq<int>)
    requires forall k :: 0 <= k < |ids| ==> ids[k] > 0
    ensures PositiveIds(IdStrings(ids)) == ids
    ensures forall k :: 0 <= k < |ids| ==> ',' !in IdStrings(ids)[k]
  {
    var strs := IdStrings(ids);
    forall k | 0 <= k < |ids| ensures Map(ParseInt, strs)[k] == Int(ids[k]) && ',' !in strs[k] {
      ParseIntOfIntToString(ids[k]);
      assert AllDigits(NatToString(ids[k]));
      assert strs[k] == NatToString(ids[k]);
    }
    assert Map(ParseInt, strs) == seq(|ids|, k requires 0 <= k < |ids| => Int(ids[k]));
    PositiveNumsKeepsPositive(ids);
  }

  /** The team filter survives the trip: for positive ids, what the server's
      `parseOptionalMultiTeamFilter` reads from `team_ids` is the list the
      client sent, in its order; with no team selected, the empty list. */
  lemma TeamIdsRoundTrip(filter: string, order: int, teamIds: seq<int>)
    requires forall k :: 0 <= k < |teamIds| ==> teamIds[k] > 0
    ensures ParseOptionalMultiTeamFilter(Lookup(GetTasksParams(filter, order, teamIds), "team_ids")) == teamIds
  {
    if |teamIds| > 0 {
      PositiveIdsReadBack(teamIds);
      SplitJoin(IdStrings(teamIds), ',');
    }
  }

  /** The default `order = 0` asks for no ORDER BY. */
  lemma DefaultOrderUnsorted(filter: string, teamIds: seq<int>, ncols: nat)
    ensures DecodeOrder(ParseParam(Lookup(GetTasksParams(filter, 0, teamIds), "order")), ncols) == Unsorted
  {
  }
}
