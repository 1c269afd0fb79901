/** The edit-lock registry of src/api/admin.ts: a process-wide map from a
    resource name ("edit-task", "edit-person", …) to the lock on it, with an
    acquire and a release handler, each of which broadcasts an
    `edit_lock_changed` event to the administrators when it succeeds; and
    the forced termination of a login session, which broadcasts
    `active_users_changed`. */
module AdminLocks {

  import opened Common

  /** The entry the registry keeps for a held resource. */
  datatype EditLock = EditLock(owner: string, userId: int, resource: string, createdAt: int)

  /** The JSON body of a successful reply. */
  datatype Reply =
    | Acquired(resource: string, owner: string)
    | Released(resource: string)
    | Terminated(sid: string)

  /** What one handler call does: its reply, the registry afterwards, and the
      broadcasts it sent. */
  datatype Step = Step(reply: Result<Reply, Failure>, locks: map<string, EditLock>, emitted: seq<Broadcast>)

  const ResourceMissing: string := "resource was not provided"
  const SidMissing: string := "sid was not provided"
  const TerminatedReason: string := "Session was terminated by admin"

  function BusyMessage(owner: string): string
  {
    "Resource is being edited by " + owner
  }

  /** The registry's invariant: each lock is filed under its own resource
      name, and that name is never empty. Being a map, the registry holds at
      most one lock per resource. */
  predicate WellFormed(locks: map<string, EditLock>)
  {
    forall r :: r in locks ==> locks[r].resource == r && r != ""
  }

  /** Entries for every resource other than `resource` are the same. */
  ghost predicate SameElsewhere(a: map<string, EditLock>, b: map<string, EditLock>, resource: string)
  {
    (forall r :: r != resource ==> (r in a <==> r in b))
    && (forall r :: r != resource && r in a ==> a[r] == b[r])
  }

  /** The lock-changed broadcast a successful call sends to role 0. */
  function LockChanged(resource: string, user: User, locked: bool): Broadcast
  {
    Broadcast([AdminRole], EditLockChanged(resource, user.username, locked))
  }

  /** POST /locks/acquire. */
  function AcquireStep(locks: map<string, EditLock>, resource: string, user: User, now: int): (s: Step)
    // an empty resource name is refused before anything happens
    ensures resource == "" ==> s == Step(Err(HttpError(400, ResourceMissing)), locks, [])
    // a lock held by another user id is never overridden
    ensures resource != "" && resource in locks && locks[resource].userId != user.id ==>
              s == Step(Err(HttpError(409, BusyMessage(locks[resource].owner))), locks, [])
    // otherwise (free, or held by the same user id) the caller holds a fresh entry
    ensures s.reply.Ok? <==> resource != "" && (resource !in locks || locks[resource].userId == user.id)
    ensures s.reply.Ok? ==>
              && s.reply.value == Acquired(resource, user.username)
              && resource in s.locks
              && s.locks[resource] == EditLock(user.username, user.id, resource, now)
              && s.emitted == [LockChanged(resource, user, true)]
    ensures s.reply.Err? ==> s.locks == locks && s.emitted == []
    ensures s.locks.Keys == if s.reply.Ok? then locks.Keys + {resource} else locks.Keys
    ensures SameElsewhere(locks, s.locks, resource)
    ensures WellFormed(locks) ==> WellFormed(s.locks)
  {
    if resource == "" then Step(Err(HttpError(400, ResourceMissing)), locks, [])
    else if resource in locks && locks[resource].userId != user.id then
      Step(Err(HttpError(409, BusyMessage(locks[resource].owner))), locks, [])
    else
      Step(Ok(Acquired(resource, user.username)),
           locks[resource := EditLock(user.username, user.id, resource, now)],
           [LockChanged(resource, user, true)])
  }

  /** POST /locks/release. */
  function ReleaseStep(locks: map<string, EditLock>, resource: string, user: User): (s: Step)
    ensures resource == "" ==> s == Step(Err(HttpError(400, ResourceMissing)), locks, [])
    // only the holder's user id may release a held lock
    ensures resource != "" && resource in locks && locks[resource].userId != user.id ==>
              s == Step(Err(HttpError(409, BusyMessage(locks[resource].owner))), locks, [])
    // releasing one's own lock, or a resource nobody holds, succeeds
    ensures s.reply.Ok? <==> resource != "" && (resource !in locks || locks[resource].userId == user.id)
    ensures s.reply.Ok? ==>
              && s.reply.value == Released(resource)
              && s.locks.Keys == locks.Keys - {resource}
              && s.emitted == [LockChanged(resource, user, false)]
    ensures s.reply.Err? ==> s.locks == locks && s.emitted == []
    ensures SameElsewhere(locks, s.locks, resource)
    ensures WellFormed(locks) ==> WellFormed(s.locks)
  {
    if resource == "" then Step(Err(HttpError(400, ResourceMissing)), locks, [])
    else if resource in locks && locks[resource].userId != user.id then
      Step(Err(HttpError(409, BusyMessage(locks[resource].owner))), locks, [])
    else
      Step(Ok(Released(resource)), locks - {resource}, [LockChanged(resource, user, false)])
  }

  /** DELETE /users: terminate the login session `sid`. The session store's
      `destroy` is a collaborator; `destroyError` is the error it reports,
      if any, which the handler lets propagate. */
  function TerminateStep(locks: map<string, EditLock>, sid: string, destroyError: Option<string>): (s: Step)
    ensures s.locks == locks
    ensures sid == "" ==> s.reply == Err(HttpError(400, SidMissing))
    ensures s.reply.Ok? <==> sid != "" && destroyError.None?
    ensures s.reply.Ok? ==> s.reply.value == Terminated(sid)
    ensures sid != "" && destroyError.Some? ==> s.reply == Err(Propagated(destroyError.value))
    ensures s.emitted == if s.reply.Ok? then [Broadcast([AdminRole], ActiveUsersChanged(TerminatedReason))] else []
  {
    if sid == "" then Step(Err(HttpError(400, SidMissing)), locks, [])
    else if destroyError.Some? then Step(Err(Propagated(destroyError.value)), locks, [])
    else Step(Ok(Terminated(sid)), locks, [Broadcast([AdminRole], ActiveUsersChanged(TerminatedReason))])
  }

  /** Mutual exclusion: once `holder` has acquired `resource`, every other
      user id is refused, with the holder's name, whether it acquires or
      releases, and the holder may acquire again. */
  lemma HolderExcludesOthers(locks: map<string, EditLock>, resource: string, holder: User, other: User, t0: int, t1: int)
    requires AcquireStep(locks, resource, holder, t0).reply.Ok?
    requires other.id != holder.id
    ensures var after := AcquireStep(locks, resource, holder, t0).locks;
            && AcquireStep(after, resource, other, t1).reply == Err(HttpError(409, BusyMessage(holder.username)))
            && ReleaseStep(after, resource, other).reply == Err(HttpError(409, BusyMessage(holder.username)))
            && AcquireStep(after, resource, holder, t1).reply.Ok?
  {
  }

  /** Release undoes acquire: acquiring a free resource and releasing it
      again leaves the registry as it was, after exactly two broadcasts. */
  lemma AcquireThenRelease(locks: map<string, EditLock>, resource: string, user: User, now: int)
    requires resource != "" && resource !in locks
    ensures var a := AcquireStep(locks, resource, user, now);
            var r := ReleaseStep(a.locks, resource, user);
            && r.reply.Ok? && r.locks == locks
            && a.emitted + r.emitted == [LockChanged(resource, user, true), LockChanged(resource, user, false)]
  {
    var a := AcquireStep(locks, resource, user, now);
    assert a.locks - {resource} == locks;
  }

  /** The process-wide state of the admin router: the lock registry and, as
      a ghost log, every broadcast the handlers sent. */
  class AdminState {
    var editLocks: map<string, EditLock>
    ghost var broadcasts: seq<Broadcast>

    ghost predicate Valid()
      reads this
    {
      WellFormed(editLocks)
    }

    /** At start-up no resource is locked. */
    constructor ()
      ensures Valid()
      ensures editLocks == map[] && broadcasts == []
    {
      editLocks := map[];
      broadcasts := [];
    }

    /** POST /locks/acquire for the signed-in `user` at time `now`. */
    method AcquireLock(resource: string, user: User, now: int) returns (r: Result<Reply, Failure>)
      requires Valid()
      modifies this
      ensures Valid()
      ensures var s := AcquireStep(old(editLocks), resource, user, now);
              r == s.reply && editLocks == s.locks && broadcasts == old(broadcasts) + s.emitted
    {
      if resource == "" {
        return Err(HttpError(400, ResourceMissing));
      }
      var current := if resource in editLocks then Some(editLocks[resource]) else None;
      if current.Some? && current.value.userId != user.id {
        return Err(HttpError(409, BusyMessage(current.value.owner)));
      }
      editLocks := editLocks[resource := EditLock(user.username, user.id, resource, now)];
      broadcasts := broadcasts + [LockChanged(resource, user, true)];
      r := Ok(Acquired(resource, user.username));
    }

    /** POST /locks/release for the signed-in `user`. */
    method ReleaseLock(resource: string, user: User) returns (r: Result<Reply, Failure>)
      requires Valid()
      modifies this
      ensures Valid()
      ensures var s := ReleaseStep(old(editLocks), resource, user);
              r == s.reply && editLocks == s.locks && broadcasts == old(broadcasts) + s.emitted
    {
      if resource == "" {
        return Err(HttpError(400, ResourceMissing));
      }
      var current := if resource in editLocks then Some(editLocks[resource]) else None;
      if current.Some? && current.value.userId != user.id {
        return Err(HttpError(409, BusyMessage(current.value.owner)));
      }
      editLocks := editLocks - {resource};
      broadcasts := broadcasts + [LockChanged(resource, user, false)];
      r := Ok(Released(resource));
    }

    /** DELETE /users?sid=…; the registry is untouched. */
    method TerminateSession(sid: string, destroyError: Option<string>) returns (r: Result<Reply, Failure>)
      requires Valid()
      modifies this
      ensures Valid()
      ensures var s := TerminateStep(old(editLocks), sid, destroyError);
              r == s.reply && editLocks == s.locks && broadcasts == old(broadcasts) + s.emitted
    {
      if sid == "" {
        return Err(HttpError(400, SidMissing));
      }
      if destroyError.Some? {
        return Err(Propagated(destroyError.value));
      }
      broadcasts := broadcasts + [Broadcast([AdminRole], ActiveUsersChanged(TerminatedReason))];
      r := Ok(Terminated(sid));
    }
  }

  /** Two administrators contend for the task editor. */
  method TwoEditorsScenario()
  {
    var admin := new AdminState();
    var alice := User(1, "alice", [AdminRole]);
    var bob := User(2, "bob", [AdminRole]);
    var r := admin.AcquireLock("edit-task", alice, 1000);
    assert r == Ok(Acquired("edit-task", "alice"));
    r := admin.AcquireLock("edit-task", bob, 1001);
    assert r == Err(HttpError(409, BusyMessage("alice")));
    r := admin.ReleaseLock("edit-task", bob);
    assert r.Err?;
    r := admin.ReleaseLock("edit-task", alice);
    assert r == Ok(Released("edit-task"));
    r := admin.AcquireLock("edit-task", bob, 1002);
    assert r == Ok(Acquired("edit-task", "bob"));
    assert admin.editLocks["edit-task"].owner == "bob";
    assert |admin.broadcasts| == 3;
  }
}
