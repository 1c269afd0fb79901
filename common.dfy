/** Types shared by the server handlers and the client components: the
    failure-compatible wrappers, the HTTP error every handler raises, the
    identity of the signed-in user and the messages pushed over the
    notification channel. */
module Common {

  datatype Option<+T> = None | Some(value: T)

  datatype Result<+T, +E> = Ok(value: T) | Err(error: E)

  /** An error a handler raises: a status code and the message the client sees.
      `Propagated` is an exception of a collaborator (the session store) that
      the handler lets through without wrapping it in an HTTP status. */
  datatype Failure = HttpError(status: nat, message: string) | Propagated(reason: string)

  /** The message of a failure, as `error.message` reads it. */
  function MessageOf(f: Failure): string
  {
    match f
    case HttpError(_, m) => m
    case Propagated(m) => m
  }

  /** The user attached to a request by the session middleware. */
  datatype User = User(id: int, username: string, roles: seq<int>)

  /** Role 0 is the administrator, role 1 the ordinary user. */
  const AdminRole: int := 0
  const UserRole: int := 1

  /** Some role of `user` is one of `roles`. */
  predicate HasAnyRole(user: User, roles: seq<int>)
  {
    exists k :: 0 <= k < |user.roles| && user.roles[k] in roles
  }

  /** The payload of a push notification. */
  datatype Event =
    | EditLockChanged(resource: string, owner: string, locked: bool)
    | ActiveUsersChanged(reason: string)
    | MembershipChanged(personId: int, teamIds: seq<int>)

  /** One call of the websocket `broadcast`: the roles whose clients receive
      the event, and the event. */
  datatype Broadcast = Broadcast(audience: seq<int>, event: Event)
}
