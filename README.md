# pws-project-2025 core, modelled in Dafny

This project models the logic core of a small organisational web application. The application tracks persons, teams, team memberships and time-bounded tasks. It has an Express back end over SQLite and an Angular front end. The model covers:

- **The administrators' edit-lock registry** (`src/api/admin.ts`).
  - A process-wide map from resource name to lock, with acquire and release handlers that broadcast `edit_lock_changed`.
  - The forced logout of a session.
  - The projection of stored session rows into the active-user list, with its `current` flag.
  - The row limit of the change log.
- **The `Task` record's validating constructor** (`src/model/task.ts`), and the client form's date validator that mirrors it (`task-form.ts`).
- **The task handlers** (`src/api/tasks.ts`).
  - The `team_ids` filter and the WHERE / IN / ORDER BY query composition.
  - The rule that a task's responsible person belongs to its team.
  - The id checks of update and delete.
- **The person handlers** (`src/api/persons.ts`).
  - The task-consistency check.
  - The replacement of a person's memberships.
  - The create / update / delete outcomes.
  - The ORDER BY / LIMIT / OFFSET composition.
- **The client's request encoding** (`services/tasks.ts`), the signed sort column of the tasks table (`tasks-table.ts`) and its role guard.
- **The enumeration of team pairs for the distance table** (`map.ts`).

One module per source concern:

- `Common`: shared types — `Option`/`Result`, HTTP failures, users, broadcasts.
- `Js`: the JavaScript semantics the code relies on — truthiness, `Number.isInteger`, `parseInt(_, 10)`, `String(int)`, `split`, `join`, `trim`.
- `SqlText`: SQL text fragments and placeholder counting.
- `Tables`: task and membership rows.
- One module per core file: `AdminLocks`, `AdminSessions`, `TaskModel`, `TasksApi`, `PersonsApi`, `TaskForm`, `TasksService`, `TasksTableView`, `DistanceRows`.

How state is modelled:

- Code that changes state in place is a class whose methods are proved against pure step functions:
  - the lock map: `AdminLocks.AdminState`;
  - the memberships table: `PersonsApi.PersonsStore`;
  - the form state: `TaskForm.TaskFormState`;
  - the table component: `TasksTableView.TasksTable`.
- The query builders are methods that append to `query` and `sqlParams` step by step. They are proved equal to a pure query function, and proved to bind exactly one parameter per `?` placeholder.
- Broadcasts, requests sent and dialogs opened are recorded in ghost logs.

Two behaviours of the code that a reader might expect otherwise:

- **Re-acquiring your own lock** does not return the existing lock unchanged. The code (`src/api/admin.ts:95-100`) overwrites the entry and refreshes `createdAt`. `AcquireStep` says so.
- **Terminating an unknown session** is not reported as "not found" by the handler itself. The code (`src/api/admin.ts:74-79`) returns whatever the session store's `destroy` reports. The model takes that outcome as a parameter (`destroyError`).

## Model

| member | source | states |
|---|---|---|
| AdminLocks.AcquireStep | src/api/admin.ts:85-103 | An empty resource is refused with 400, and nothing changes or is sent. A lock held by a different user id is refused with 409 "Resource is being edited by <owner>", with the map unchanged and no broadcast. Otherwise (free, or held by the same user id) the call succeeds: the entry becomes (username, user id, resource, now), overwriting the caller's own older entry, and exactly one role-0 `edit_lock_changed` with `locked = true` is sent. Other resources are untouched, and the map stays well formed. |
| AdminLocks.ReleaseStep | src/api/admin.ts:105-118 | Same 400 and 409 refusals. Releasing one's own lock, or an unheld resource, succeeds. The key is then absent and exactly one `locked = false` broadcast is sent. Other entries are unchanged, and well-formedness is kept. |
| AdminLocks.TerminateStep | src/api/admin.ts:70-83 | An empty sid gives 400. A store error propagates unwrapped. Success sends exactly one role-0 `active_users_changed` broadcast. The lock map is never touched. |
| AdminLocks.HolderExcludesOthers | src/api/admin.ts:90-93 | Once a user holds a resource, every other user id gets 409 naming the holder, both on acquire (90-93) and on release (110-113). The holder may re-acquire. |
| AdminLocks.AcquireThenRelease | src/api/admin.ts:95-116 | Acquiring a free resource, then releasing it, restores the map exactly. The pair sends the `locked = true` and `locked = false` broadcasts, in that order. |
| AdminLocks.AdminState.constructor | src/api/admin.ts:13 | The registry starts empty, with no broadcasts sent. |
| AdminLocks.AdminState.AcquireLock | src/api/admin.ts:85-103 | The imperative handler's reply, new map and broadcast log are those of `AcquireStep`. It keeps the invariant `Valid`. |
| AdminLocks.AdminState.ReleaseLock | src/api/admin.ts:105-118 | Reply, new map and log are those of `ReleaseStep`. It keeps `Valid`. |
| AdminLocks.AdminState.TerminateSession | src/api/admin.ts:70-83 | Reply and log are those of `TerminateStep`. The map is unchanged. |
| AdminSessions.ProjectRow | src/api/admin.ts:24-42 | A row is dropped exactly when its JSON does not parse, `passport.user` is falsy, or the user does not resolve. A kept entry copies sid and expiry, takes name and roles from the cache, and is `expired` exactly when `expire*1000 < now`. |
| AdminSessions.KeptRows | src/api/admin.ts:23-43 | The kept row positions are strictly increasing and in range. A position is listed exactly when its row projects. |
| AdminSessions.ReadActiveSessions | src/api/admin.ts:23-43 | The list holds exactly the projections of the kept rows, in query order. |
| AdminSessions.ReadKeepsSidsDistinct | src/api/admin.ts:23-43 | Sids unique among the rows stay unique in the list. |
| AdminSessions.MarkCurrent | src/api/admin.ts:64-67 | Each session is kept unchanged and in place. It is `current` exactly when its sid is the requester's. |
| AdminSessions.AtMostOneCurrent | src/api/admin.ts:61-67 | With unique sids, at most one listed session is `current`. |
| AdminSessions.ChangesLimitAsWritten | src/api/admin.ts:50 | As written: NaN and 0 give 200. Any other value is capped at 2000 from above only. |
| AdminSessions.NegativeLimitEscapesCap | src/api/admin.ts:50-53 | Any negative `?limit=` (for example -1) comes through as that negative LIMIT. SQLite reads a negative limit as no limit. |
| AdminSessions.ChangesLimit | src/api/admin.ts:50 | Corrected cap: always between 1 and 2000. It agrees with the code for positive limits. Missing, zero or negative limits give 200. |
| TaskModel.DateError | src/model/task.ts:21-33 | The date checks pass exactly when start is valid and not after now, and any end is valid, not after now and not before start. |
| TaskModel.NewTask | src/model/task.ts:11-41 | Checks run in order (name, team, person, start valid, end valid, start future, end range) and the first failure decides the 400 message. Success happens exactly when all checks pass. The result has id 0 and the trimmed input name, which is non-empty with no white space at either end. Ids and dates are copied; dates are not after now and end ≥ start. |
| TaskForm.TaskDateValidator | frontend/src/app/components/task-form/task-form.ts:15-33 | A missing or invalid start gives `startDateInvalid`; a future start gives `startDateFuture`. With an end date: invalid, future, then before-start, in that order. The result is null exactly when every check passes. |
| TaskForm.ValidatorAgreesWithServer | frontend/src/app/components/task-form/task-form.ts:21-32 | The client validator accepts exactly the date pairs the server's `Task` constructor accepts (src/model/task.ts:21-33). A form without a start date never passes. |
| TaskForm.ValidFormIsAccepted | frontend/src/app/components/task-form/task-form.ts:15-33 | With a well-formed name and ids, the server creates the task exactly when the client validator passes. |
| TaskForm.ErrorPrecedenceDiffers | frontend/src/app/components/task-form/task-form.ts:21-31 | A future start with an invalid end is reported as `startDateFuture` by the client and as "End date was not provided correctly" by the server. |
| TaskForm.PersonsInTeam | frontend/src/app/components/task-form/task-form.ts:95 | The filter keeps exactly the persons whose `team_objects` contain the team, as a subsequence of the list. Every occurrence of a member is kept, and none of anyone else (multiset counts). |
| TaskForm.TeamPersons | frontend/src/app/components/task-form/task-form.ts:90-96 | A null or zero team gives `[]`. Otherwise the result is exactly the members of that team, in list order, each as often as it occurs in the list. |
| TaskForm.TaskFormState.constructor | frontend/src/app/components/task-form/task-form.ts:48-55 | No persons are loaded and no person is chosen. |
| TaskForm.TaskFormState.LoadPersons | frontend/src/app/components/task-form/task-form.ts:72-75 | The loaded list is stored, and `teamPersons` becomes the persons of the form's current team in that list. |
| TaskForm.TaskFormState.UpdateTeamPersons | frontend/src/app/components/task-form/task-form.ts:90-96 | `teamPersons` becomes `TeamPersons(persons, teamId)`. |
| TaskForm.TaskFormState.OnTeamChange | frontend/src/app/components/task-form/task-form.ts:61-67 | The chosen person is cleared exactly when it is set and not in the new team list; otherwise it is unchanged. Afterwards the choice is always selectable. |
| TaskForm.SelectedPersonInTeam | frontend/src/app/components/task-form/task-form.ts:61-67 | A person still listed after a team change belongs to that team. |
| Js.TrimProperties | src/model/task.ts:36 | `trim` returns a slice of the input with no white space at either end. It is empty exactly for blank input, and it is idempotent. |
| Js.ParseIntOfIntToString | frontend/src/app/services/tasks.ts:19 | `parseInt(String(i), 10)` is `i` for every integer, so the sent `order` reads back. |
| Js.MapAppend | src/api/tasks.ts:25 | `map` distributes over concatenation. |
| Js.Split | src/api/tasks.ts:24 | `split(',')` yields at least one piece, none containing a comma. |
| Js.SplitJoin | src/api/tasks.ts:23-24 | Splitting a comma join of comma-free pieces gives back the pieces. |
| SqlText.DecodeOrder | src/api/tasks.ts:74-79 | `1 ≤ order ≤ ncols` gives ascending by `order`; `-ncols ≤ order ≤ -1` gives descending by `-order`; anything else, NaN and 0 included, gives no sort. |
| SqlText.OrderByClauseCount | src/api/tasks.ts:74-79 | The ORDER BY text holds no placeholder. |
| SqlText.AppendOrderBy | src/api/persons.ts:56-61 | The handlers' ORDER BY step appends exactly the clause of the decoded sort (the same code as src/api/tasks.ts:74-79). |
| SqlText.PlaceholdersCount | src/api/tasks.ts:66 | `ids.map(() => '?').join(',')` has exactly n placeholders and splits into n "?" pieces. |
| SqlText.WhereClauseCount | src/api/tasks.ts:70-72 | The WHERE text has exactly as many placeholders as its parts together. It is empty when there are no parts. |
| SqlText.InListCount | src/api/tasks.ts:66 | The IN list has exactly one placeholder per selected id. |
| SqlText.DoubleQuotes | src/api/tasks.ts:62 | Each `'` is doubled, and the length grows by the number of quotes. |
| SqlText.DoubleQuotesRoundTrip | src/api/tasks.ts:62 | The doubling is reversible (undoubling gives the search text back), and the escaped text has only paired quotes. |
| SqlText.LikePattern | src/api/tasks.ts:62 | As written: the pattern is two characters plus one per quote longer than the text, starts and ends with `%`, and its middle has paired quotes and undoubles to the search text. |
| SqlText.QuotedSearchMissesItself | src/api/tasks.ts:61-62 | As written, a search text containing a quote does not occur in itself under the bound pattern, so searching for `O'Brien` does not find `O'Brien`. |
| SqlText.SearchPattern | src/api/persons.ts:51-52 | The intended pattern: two characters longer than the text, `%` at both ends, the text occurs under it, and its quotes are kept as they are. |
| TasksApi.PositiveNums | src/api/tasks.ts:26 | Every id kept is positive, and there are no more ids than parsed numbers. |
| TasksApi.PositiveNumsMembers | src/api/tasks.ts:26 | An integer is kept exactly when it is positive and occurs among the parsed numbers. |
| TasksApi.PositiveNumsAppend | src/api/tasks.ts:26 | The filter keeps order: filtering a concatenation concatenates the filtered parts. |
| TasksApi.PositiveNumsKeepsPositive | src/api/tasks.ts:26 | A list of positive integers passes the filter unchanged. |
| TasksApi.PositiveIdsAppend | src/api/tasks.ts:24-26 | Parsing and filtering keep piece order: the ids of a concatenation of pieces are the concatenation of the ids. |
| TasksApi.ParseOptionalMultiTeamFilter | src/api/tasks.ts:21-27 | An absent or empty parameter gives `[]`. Every id returned is positive. |
| TasksApi.QueryPlaceholders | src/api/tasks.ts:50-79 | The composed query has exactly as many `?` as bound parameters: the LIKE pattern, then the team ids. |
| TasksApi.TasksQueryPlaceholders | src/api/tasks.ts:46-79 | The same for GET / from its raw query parameters. |
| TasksApi.CollectConditions | src/api/tasks.ts:50-68 | The collected conditions are the search condition (when `q` is non-empty) followed by the team IN list (when teams are selected). The parameters are the LIKE pattern as written (`LikePattern`, quotes doubled) followed by the team ids, in the same order. |
| TasksApi.ListTasksQuery | src/api/tasks.ts:46-79 | The step-by-step appends produce `TasksQuery`: the WHERE parts, then the ORDER BY, with the as-written LIKE pattern (`LikePattern`) and the team ids as parameters. Placeholders and parameters match one to one. |
| TasksApi.EnsureResponsiblePersonInTeam | src/api/tasks.ts:10-19 | The check passes exactly when the membership row exists; otherwise it gives 400 "Responsible person must belong to assigned team". |
| TasksApi.CreateTask | src/api/tasks.ts:84-101 | A task is created exactly when the constructor succeeds and the person belongs to the team. A constructor error or missing membership gives 400 "Cannot add task: " plus the inner message. |
| TasksApi.UpdateTask | src/api/tasks.ts:103-128 | A non-number or non-positive id gives 400 before anything else. Success needs a valid task, a membership and an existing integer id. A missing task is rewrapped as 400 "Cannot update task: Task to update not found". All failures are 400. |
| TasksApi.DeleteTask | src/api/tasks.ts:130-140 | A NaN or non-positive id gives 404 "ID was not provided correctly". Deletion happens exactly for an existing positive id; otherwise the reply is 404. |
| TasksApi.CreateKeepsCovered | src/api/tasks.ts:84-101 | Inserting a created task keeps every task's person in the task's team. |
| TasksApi.UpdateKeepsCovered | src/api/tasks.ts:103-128 | Rewriting a row with an updated task keeps every task's person in the task's team. |
| PersonsApi.BlockedTasks | src/api/persons.ts:77-86 | The query returns exactly the person's tasks whose team is not in the new list. |
| PersonsApi.EnsureTaskConsistency | src/api/persons.ts:76-90 | It fails (400) exactly when some task of the person lies in a team outside the new list. With an empty list, any task of the person blocks. |
| PersonsApi.WithoutPerson | src/api/persons.ts:93 | The delete removes exactly the person's rows. |
| PersonsApi.ReplaceMemberships | src/api/persons.ts:92-96 | Afterwards the person belongs to exactly the listed teams. Every other person's memberships are unchanged. |
| PersonsApi.ReplaceMembershipsTeams | src/api/persons.ts:92-96 | The person's teams, in table order, are exactly the given list. Other persons' team lists are unchanged. |
| PersonsApi.ReplaceKeepsCovered | src/api/persons.ts:133-141 | Setting memberships after a passed consistency check keeps every task's person in the task's team. |
| PersonsApi.UpdateOutcomeAsWritten | src/api/persons.ts:123-149 | As written, the reply equals the intended `UpdateOutcome` except on the not-found branch, where it is SQLite's ROLLBACK error. |
| PersonsApi.MissingPersonUpdateEscapes | src/api/persons.ts:137-147 | For a positive integer id that names no person and no task, the as-written reply is the ROLLBACK error, while the intended one is 400 "Cannot update person: Person to update not found". |
| PersonsApi.UpdateOutcome | src/api/persons.ts:123-149 | The intended reply. A bad id gives 400 "ID was not provided correctly". Success happens exactly with a valid person, an integer existing id and a passed consistency check. A missing person or an inconsistent team list is rewrapped as 400 "Cannot update person: …". |
| PersonsApi.DeleteOutcomeAsWritten | src/api/persons.ts:151-171 | As written, the reply equals the intended `DeleteOutcome` except for an unknown positive id, where it is SQLite's ROLLBACK error. |
| PersonsApi.MissingPersonDeleteEscapes | src/api/persons.ts:159-169 | `?id=<n>` for an unknown positive `n` gets the ROLLBACK error as written, and 400 "Cannot delete person: Person to delete not found" as intended. |
| PersonsApi.DeleteOutcome | src/api/persons.ts:151-171 | The intended reply. A NaN or non-positive id gives 400 "Cannot delete person". Deletion happens exactly for an existing positive id; otherwise the reply is 400 "Cannot delete person: Person to delete not found". |
| PersonsApi.PersonsStore.SetMembership | src/api/persons.ts:92-98 | The delete and the insert loop leave `ReplaceMemberships` of the old table. One `membership_changed` broadcast goes to roles 0 and 1. |
| PersonsApi.PersonsStore.CreatePerson | src/api/persons.ts:104-121 | A non-array `team_ids` counts as `[]`. On success the fresh id is added and its memberships set. On error everything is rolled back with 400 "Cannot add person: …". The coverage invariant is kept. |
| PersonsApi.PersonsStore.UpdatePerson | src/api/persons.ts:123-149 | The reply is the intended `UpdateOutcome` (as written it differs only on not-found, see Findings). On success memberships are replaced and broadcast. On failure the tables and the log are unchanged. The coverage invariant is kept. |
| PersonsApi.PersonsStore.DeletePerson | src/api/persons.ts:151-171 | The reply is the intended `DeleteOutcome` (as written it differs only for an unknown id, see Findings). On success the person is removed and `membership_changed` with `[]` is broadcast. |
| PersonsApi.PagingParams | src/api/persons.ts:62-71 | LIMIT is bound exactly for a positive limit, and OFFSET exactly when LIMIT is and the offset is numeric. LIMIT's value comes first. |
| PersonsApi.PagingCount | src/api/persons.ts:62-71 | The LIMIT/OFFSET text has one placeholder per bound value. |
| PersonsApi.SearchClauseCount | src/api/persons.ts:41-52 | The search text binds exactly one parameter when `q` is truthy, otherwise none. |
| PersonsApi.PersonsQueryPlaceholders | src/api/persons.ts:36-71 | GET / binds one parameter per placeholder. |
| PersonsApi.AppendPaging | src/api/persons.ts:62-71 | The LIMIT/OFFSET appends produce `PagingClause` and `PagingParams`. |
| PersonsApi.ListPersonsQuery | src/api/persons.ts:36-71 | The step-by-step appends produce `PersonsQuery`, binding the as-written LIKE pattern (`LikePattern`) and then the paging values, one per placeholder. |
| TasksService.GetTasksParams | frontend/src/app/services/tasks.ts:18-24 | `q` and `order` are always sent, and `team_ids` only for a non-empty list. The server reads back `q` and the `order` number exactly. |
| TasksService.PositiveIdsReadBack | frontend/src/app/services/tasks.ts:21 | Rendered positive ids contain no comma, and the server's filter parses them back in order. |
| TasksService.TeamIdsRoundTrip | frontend/src/app/services/tasks.ts:20-22 | For positive ids, the server's `parseOptionalMultiTeamFilter` of the sent `team_ids` equals the client's list (src/api/tasks.ts:21-27). |
| TasksService.DefaultOrderUnsorted | frontend/src/app/services/tasks.ts:18-19 | The default `order = 0` gives no ORDER BY. |
| TasksTableView.NextOrder | frontend/src/app/components/tasks-table/tasks-table.ts:68-74 | A NaN or zero column gives no change and no reload. `asc` gives the column, `desc` its negation; any other direction keeps the order but reloads. |
| TasksTableView.SortRoundTrip | frontend/src/app/components/tasks-table/tasks-table.ts:68-74 | Clicking column c (1..ncols) makes the server sort by c, ascending or descending as clicked (src/api/tasks.ts:74-79). |
| TasksTableView.TasksTable.constructor | frontend/src/app/components/tasks-table/tasks-table.ts:23-30 | The initial order is 1. |
| TasksTableView.TasksTable.LoadData | frontend/src/app/components/tasks-table/tasks-table.ts:45-57 | One request is sent with the current filter, order and teams. |
| TasksTableView.TasksTable.OnSortChange | frontend/src/app/components/tasks-table/tasks-table.ts:68-74 | `order` and the request log follow `NextOrder`: no reload on an early return, exactly one reload otherwise. |
| TasksTableView.TasksTable.OpenDialog | frontend/src/app/components/tasks-table/tasks-table.ts:59-66 | A dialog opens exactly when the user has role 0. |
| DistanceRows.RowFor | frontend/src/app/pages/map/map.ts:93-99 | A row names teams i and j. Its distance is `n/a` exactly when the entry is missing; otherwise it carries that entry. |
| DistanceRows.UpperPairsCount | frontend/src/app/pages/map/map.ts:92-101 | n teams give n*(n-1)/2 rows, so none for 0 or 1 team. |
| DistanceRows.PairsBelowLength | frontend/src/app/pages/map/map.ts:92-93 | After i outer iterations, (n-1)+…+(n-i) rows have been emitted. |
| DistanceRows.UpperPairsMembers | frontend/src/app/pages/map/map.ts:92-93 | The pairs visited are exactly those with i < j < n. |
| DistanceRows.PairsBelowSorted | frontend/src/app/pages/map/map.ts:92-97 | Rows come in strictly increasing lexicographic (i, j) order, each pair once. |
| DistanceRows.OnlyUpperTriangleRead | frontend/src/app/pages/map/map.ts:93-94 | Matrices that agree above the diagonal give the same rows. |
| DistanceRows.BuildDistanceRows | frontend/src/app/pages/map/map.ts:90-103 | The nested loops return exactly the specified rows. |

## Left out

- SQL execution and `RETURNING` rows are not modelled. Tables are lists of rows, and a rolled-back handler leaves them unchanged. Transactions appear only as open or closed when a person handler's `catch` runs its ROLLBACK (`PersonsApi.Txn`). The driver's `SQLITE_ERROR: ` prefix on SQLite's message is left out.
- The SELECT text with its `json_group_array` subquery is not modelled. The searchable-column concatenation and the column count of the table definitions are parameters (`base`, `searchConcat`, `ncols`), because src/helpers/db.ts is not part of this model.
- The COUNT queries for `total` and `filtered` in GET /persons are not modelled. They only count rows.
- The database schema is not part of this model. So the model leaves out foreign-key and uniqueness failures of inserts (a duplicate or unknown team id in `team_ids`), and any cascade when a person is deleted.
- PersonsApi.PersonsStore.DeletePerson: leaves the memberships and tasks tables unchanged, for the same reason.
- The `Person` constructor (src/model/person.ts) is not part of this model. Its outcome is the parameter `personError`.
- The change-log write (`logDbChange`) and `actorName` are not modelled. They are database I/O.
- The websocket `broadcast` transport and the session store's `destroy` are foreign calls. Broadcasts are appended to a ghost log, and the outcome of `destroy` is a parameter.
- Opening and closing the sessions database in `readActiveSessions` (src/api/admin.ts:15-21, 44-46) is not modelled. Only the row projection is.
- PersonsApi.CatchRollback: is the assumed behaviour of SQLite's ROLLBACK (it fails with "cannot rollback - no transaction is active" when no transaction is open), not derived from code in this repository.
- AdminSessions.FindUser: is the assumed behaviour of `findUserByIdSafe` (an integer id the users cache holds resolves, anything else gives absence), not derived from its code.
- `findUserByIdSafe`, `requireRole` and `AuthService.isInRole` (src/helpers/auth.ts and the auth service) are not part of this model. The users cache is a map, and `isInRole(user, [0])` is "a signed-in user with role 0".
- `Date.now()` and `new Date()` are not called. `now` is a parameter, and a `Date` is an integer instant or an invalid marker.
- `Js.ParseInt`: radix prefixes (`parseInt(_, 0)` reading `0x…` as hexadecimal, used for `offset` at src/api/persons.ts:67) are not modelled, and neither is precision loss beyond 2^53. `parseInt` is the leading-decimal-digits reading. `parseInt(sort.active)` at frontend/src/app/components/tasks-table/tasks-table.ts:69 has no radix, so `TasksTableView.NextOrder` assumes the sort-header ids are decimal numbers.
- `Js.IsSpace`: covers the common white-space characters, not every Unicode space separator.
- SqlText.Occurs: reads `LIKE '%m%'` as "m occurs in the text". LIKE's case-insensitivity for ASCII letters, and `%` or `_` inside the search text acting as wildcards, are not modelled.
- JSON request-body numbers are exact reals, so NaN cannot arrive through JSON. Arrays in bodies are arrays of integer ids.
- DistanceRows.RowFor: `toFixed(2)` kilometre formatting is float-to-string. A row carries the metres it would format. A NaN entry (a number that formats as "NaN") is not modelled, and neither is a null matrix or null row, which read as missing entries.
- HTTP query-string encoding is taken to round-trip each parameter value unchanged.
- src/api/osrm.ts, src/helpers/sysdb.ts, scripts/add_admin.js and the Angular wrapper components are not modelled. They are HTTP or database I/O, crypto and UI, with no logic beyond calls. The Leaflet map setup is left out for the same reason.

## Findings

| source | as written | input that shows it | evidently intended | confidence | as-written member | corrected member |
|---|---|---|---|---|---|---|
| src/api/admin.ts:50 | `Math.min(parseInt(limit, 10) \|\| 200, 2000)` caps the change-log limit from above only | `GET /api/admin/changes?limit=-1` gives LIMIT -1, which SQLite treats as no limit, so the whole change log is returned | a limit between 1 and 2000, defaulting to 200 | not executed | AdminSessions.ChangesLimitAsWritten (with AdminSessions.NegativeLimitEscapesCap) | AdminSessions.ChangesLimit |
| src/api/persons.ts:137-146 | the not-found branch of PUT /persons runs ROLLBACK and throws 404, then the `catch` runs ROLLBACK again | `PUT /api/persons` with `{"id": 999999, …valid fields, "team_ids": []}`: the second ROLLBACK fails with "cannot rollback - no transaction is active", and that error is what escapes | the not-found error reaches the client, rewrapped as 400 "Cannot update person: Person to update not found" like every other failure in the transaction | not executed | PersonsApi.UpdateOutcomeAsWritten (with PersonsApi.MissingPersonUpdateEscapes) | PersonsApi.UpdateOutcome |
| src/api/persons.ts:159-168 | the same double ROLLBACK in DELETE /persons | `DELETE /api/persons?id=999999` | 400 "Cannot delete person: Person to delete not found" | not executed | PersonsApi.DeleteOutcomeAsWritten (with PersonsApi.MissingPersonDeleteEscapes) | PersonsApi.DeleteOutcome |
| src/api/tasks.ts:62 | `q.replace(/'/g, "''")` doubles quotes in a value that is bound to `?`, where no SQL quoting applies (also src/api/persons.ts:52) | `GET /api/tasks?q=O'Brien` binds `%O''Brien%`, which does not match a task whose text is `O'Brien` | bind `%` + q + `%` unchanged | not executed | SqlText.LikePattern (with SqlText.QuotedSearchMissesItself) | SqlText.SearchPattern |
