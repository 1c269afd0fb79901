/** The read-only parts of src/api/admin.ts: the projection of the stored
    session rows into the active-session list (`readActiveSessions`), the
    `current` flag GET /users adds to each entry, and the row limit of
    GET /changes. */
module AdminSessions {

  import opened Common
  import opened Js

  /** The `sess` column of a session row, after `JSON.parse`: either the
      text does not parse, or it does and `passportUser` is the value of
      `sess.passport.user` (`JUndefined` when any step of that path is
      missing). */
  datatype StoredSession = Unparsable | Parsed(passportUser: JsValue)

  /** A row of `SELECT sid, sess, expire FROM sessions ORDER BY expire DESC`. */
  datatype SessionRow = SessionRow(sid: string, sess: StoredSession, expire: int)

  /** What the users cache knows about a user id. */
  datatype UserRecord = UserRecord(username: string, roles: seq<int>)

  /** One entry of the active-session list. */
  datatype ActiveSession = ActiveSession(sid: string, username: string, roles: seq<int>, userId: int, expire: int, expired: bool)

  /** An entry of the GET /users reply. */
  datatype ListedSession = ListedSession(session: ActiveSession, current: bool)

  /** `findUserByIdSafe` over the users cache: only an integer id the cache
      holds resolves; an unknown id yields absence instead of an error. */
  function FindUser(users: map<int, UserRecord>, userId: JsValue): (u: Option<UserRecord>)
    ensures u.Some? <==> userId.JNum? && IsInteger(userId.n) && userId.n.Floor in users
    ensures u.Some? ==> u.value == users[userId.n.Floor]
  {
    if userId.JNum? && IsInteger(userId.n) && userId.n.Floor in users then Some(users[userId.n.Floor]) else None
  }

  /** The `map` callback of `readActiveSessions`: a session entry, or none
      when the JSON does not parse, `passport.user` is falsy, or the user
      does not resolve. */
  function ProjectRow(row: SessionRow, users: map<int, UserRecord>, now: int): (s: Option<ActiveSession>)
    ensures s.None? <==>
              row.sess.Unparsable? || !Truthy(row.sess.passportUser) || FindUser(users, row.sess.passportUser).None?
    ensures s.Some? ==>
              && s.value.sid == row.sid
              && s.value.expire == row.expire
              && s.value.expired == (row.expire * 1000 < now)
              && row.sess.passportUser == JNum(s.value.userId as real)
              && s.value.userId in users
              && s.value.username == users[s.value.userId].username
              && s.value.roles == users[s.value.userId].roles
  {
    match row.sess
    case Unparsable => None
    case Parsed(userId) =>
      if !Truthy(userId) then None
      else
        match FindUser(users, userId)
        case None => None
        case Some(user) =>
          Some(ActiveSession(row.sid, user.username, user.roles, userId.n.Floor, row.expire, row.expire * 1000 < now))
  }

  /** The positions of the rows that yield a session, in increasing order. */
  function KeptRows(rows: seq<SessionRow>, users: map<int, UserRecord>, now: int): (ks: seq<nat>)
    ensures forall k :: 0 <= k < |ks| ==> ks[k] < |rows|
    ensures forall k, l :: 0 <= k < l < |ks| ==> ks[k] < ks[l]
    ensures forall i :: 0 <= i < |rows| ==> (ProjectRow(rows[i], users, now).Some? <==> i in ks)
    decreases |rows|
  {
    if rows == [] then []
    else
      var n := |rows| - 1;
      KeptRows(rows[..n], users, now) + (if ProjectRow(rows[n], users, now).Some? then [n] else [])
  }

  /** `readActiveSessions` over the rows the query returned:
      `rows.map(ProjectRow).filter(v => !!v)`. */
  function ReadActiveSessions(rows: seq<SessionRow>, users: map<int, UserRecord>, now: int): (r: seq<ActiveSession>)
    // exactly the rows that project, in the order of the query
    ensures |r| == |KeptRows(rows, users, now)|
    ensures forall k :: 0 <= k < |r| ==>
              ProjectRow(rows[KeptRows(rows, users, now)[k]], users, now) == Some(r[k])
    decreases |rows|
  {
    if rows == [] then []
    else
      var n := |rows| - 1;
      ReadActiveSessions(rows[..n], users, now)
      + (match ProjectRow(rows[n], users, now) case Some(s) => [s] case None => [])
  }

  /** Session ids unique among the rows stay unique in the list. */
  lemma {:induction false} ReadKeepsSidsDistinct(rows: seq<SessionRow>, users: map<int, UserRecord>, now: int)
    requires forall i, j :: 0 <= i < j < |rows| ==> rows[i].sid != rows[j].sid
    ensures var r := ReadActiveSessions(rows, users, now);
            forall k, l :: 0 <= k < l < |r| ==> r[k].sid != r[l].sid
  {
    var r := ReadActiveSessions(rows, users, now);
    var ks := KeptRows(rows, users, now);
    forall k, l | 0 <= k < l < |r| ensures r[k].sid != r[l].sid {
      assert ProjectRow(rows[ks[k]], users, now) == Some(r[k]);
      assert ProjectRow(rows[ks[l]], users, now) == Some(r[l]);
      assert ks[k] < ks[l];
    }
  }

  /** GET /users: each session marked `current` exactly when it is the
      requester's own. */
  function MarkCurrent(sessions: seq<ActiveSession>, currentSid: string): (r: seq<ListedSession>)
    ensures |r| == |sessions|
    ensures forall k :: 0 <= k < |r| ==> r[k].session == sessions[k] && (r[k].current <==> sessions[k].sid == currentSid)
  {
    seq(|sessions|, k requires 0 <= k < |sessions| => ListedSession(sessions[k], sessions[k].sid == currentSid))
  }

  /** When session ids are unique, at most one entry of the GET /users
      reply is marked `current`. */
  lemma AtMostOneCurrent(rows: seq<SessionRow>, users: map<int, UserRecord>, now: int, currentSid: string)
    requires forall i, j :: 0 <= i < j < |rows| ==> rows[i].sid != rows[j].sid
    ensures var listed := MarkCurrent(ReadActiveSessions(rows, users, now), currentSid);
            forall k, l :: 0 <= k < |listed| && 0 <= l < |listed| && listed[k].current && listed[l].current ==> k == l
  {
    ReadKeepsSidsDistinct(rows, users, now);
  }

  // ---------------------------------------------------------------------
  // GET /changes
  // ---------------------------------------------------------------------

  const DefaultChangesLimit: int := 200
  const MaxChangesLimit: int := 2000

  /** `Math.min(parseInt(limit, 10) || 200, 2000)`, as written: NaN and 0
      fall back to 200, every other value is capped at 2000 from above
      only. */
  function ChangesLimitAsWritten(limit: Num): (r: int)
    ensures r <= MaxChangesLimit
    ensures limit.NaN? || limit.v == 0 ==> r == DefaultChangesLimit
    ensures limit.Int? && limit.v != 0 ==> r == if limit.v < MaxChangesLimit then limit.v else MaxChangesLimit
  {
    var requested := if limit.NaN? || limit.v == 0 then DefaultChangesLimit else limit.v;
    if requested < MaxChangesLimit then requested else MaxChangesLimit
  }

  /** A negative limit slips through the cap: SQLite reads a negative LIMIT
      as "no limit", so `?limit=-1` returns the whole change log. */
  lemma NegativeLimitEscapesCap(n: int)
    requires n < 0
    ensures ChangesLimitAsWritten(ParseInt(IntToString(n))) == n
  {
    ParseIntOfIntToString(n);
  }

  /** The limit the cap evidently intends: between 1 and 2000, the default
      for a missing, zero or negative value. */
  function ChangesLimit(limit: Num): (r: int)
    ensures 1 <= r <= MaxChangesLimit
    ensures limit.Int? && limit.v > 0 ==> r == ChangesLimitAsWritten(limit)
    ensures !(limit.Int? && limit.v > 0) ==> r == DefaultChangesLimit
  {
    var requested := if limit.NaN? || limit.v <= 0 then DefaultChangesLimit else limit.v;
    if requested < MaxChangesLimit then requested else MaxChangesLimit
  }
}
