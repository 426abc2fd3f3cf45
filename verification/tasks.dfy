/**
 The task handlers (src/routes/tasks.js): create, the filtered list, and the
 ownership-gated get, update and delete. Every handler answers with the store
 after the request and either its data or an `ApiError`.
 */
module TaskRoutes {
  import opened Common
  import opened Text
  import opened TaskModel
  import opened Validation
  import opened Responses

  datatype Reply<+T> = Reply(db: TaskStore, result: Result<T, ApiError>)

  const NotFoundMessage: string := "Task not found"
  const AccessDeniedMessage: string := "Not authorized to access this task"
  const UpdateDeniedMessage: string := "Not authorized to update this task"
  const DeleteDeniedMessage: string := "Not authorized to delete this task"
  const CreateFailedMessage: string := "Error creating task"
  const UpdateFailedMessage: string := "Error updating task"

  /** A task is overdue at `now` when its deadline has passed and it is not completed. */
  predicate OverdueAt(deadline: Option<int>, status: Status, now: int) {
    deadline.Some? && deadline.value < now && status != Completed
  }

  /** POST /api/tasks by `caller` at time `now`. */
  function Create(db: TaskStore, caller: UserId, body: Body, now: int): (r: Reply<Task>)
    ensures r.result.Err? ==> r.db == db
    ensures ValidateTask(body).Invalid? ==> r.result == Err(ValidationFailed(ValidateTask(body).errors))
    ensures r.result.Ok? <==> ValidateTask(body).Valid? && Trim(ValidateTask(body).value.title) != ""
    ensures ValidateTask(body).Valid? && Trim(ValidateTask(body).value.title) == "" ==>
      r.result == Err(ServerError(CreateFailedMessage))
    ensures r.result.Ok? ==>
      var input := ValidateTask(body).value;
      var t := r.result.value;
      && r.db.tasks == db.tasks[db.nextId := t]
      && r.db.nextId == db.nextId + 1
      && t.user == caller
      && (t.isOverdue <==> OverdueAt(input.deadline, input.status, now))
      && t.status == input.status
      && t.priority == input.priority
      && t.title == Trim(input.title)
      && t.description == TrimOpt(input.description)
      && t.deadline == input.deadline
      && t.tags == TrimAll(input.tags.GetOr([]))
      && t.recurring.enabled == (input.recurring.Some? && input.recurring.value.enabled.GetOr(false))
      && t.recurring.frequency == (if input.recurring.Some? then input.recurring.value.frequency else None)
      && t.completedAt.None?
      && t.createdAt == now
    ensures StoreValid(db) ==> StoreValid(r.db)
  {
    match ValidateTask(body)
    case Invalid(errors) => Reply(db, Err(ValidationFailed(errors)))
    case Valid(input) =>
      ValidatedTaskWithinLimits(body);
      var overdue := OverdueAt(input.deadline, input.status, now);
      var draft := Draft(input.title, input.description, Some(input.priority), Some(input.status),
                         input.deadline, Some(overdue), input.tags, caller, input.recurring);
      match Build(draft, now)
      case Err(_) => Reply(db, Err(ServerError(CreateFailedMessage)))
      case Ok(t) => Reply(Insert(db, t), Ok(t))
  }

  /** Every body the create schema accepts has a title and any description within
      the limits and a deadline a `Date` can hold, so creating the task can fail only
      on a title that trims to "". */
  lemma ValidatedTaskWithinLimits(body: Body)
    requires ValidateTask(body).Valid?
    ensures var input := ValidateTask(body).value;
      && Utf16Length(input.title) <= TitleMaxLength
      && (input.description.Some? ==> Utf16Length(input.description.value) <= DescriptionMaxLength)
      && (input.deadline.Some? ==> InTimeRange(input.deadline.value))
  {
    TaskDefaults(body);
    TaskRules(body);
  }

  /** The ownership gate shared by get, update and delete: 404 when there is no such
      task, 403 when it belongs to someone else, the task otherwise. */
  function Authorize(db: TaskStore, caller: UserId, id: TaskId, denied: string): (r: Result<Task, ApiError>)
    ensures r.Ok? <==> id in db.tasks && db.tasks[id].user == caller
    ensures r.Ok? ==> r.value == db.tasks[id]
    ensures id !in db.tasks ==> r == Err(NotFound(NotFoundMessage))
    ensures id in db.tasks && db.tasks[id].user != caller ==> r == Err(Forbidden(denied))
  {
    if id !in db.tasks then Err(NotFound(NotFoundMessage))
    else if db.tasks[id].user != caller then Err(Forbidden(denied))
    else Ok(db.tasks[id])
  }

  /** GET /api/tasks/:id. */
  function Get(db: TaskStore, caller: UserId, id: TaskId): (r: Result<Task, ApiError>)
    ensures r.Ok? <==> id in db.tasks && db.tasks[id].user == caller
    ensures r.Ok? ==> r.value == db.tasks[id]
    ensures id !in db.tasks ==> r == Err(NotFound(NotFoundMessage))
    ensures id in db.tasks && db.tasks[id].user != caller ==> r == Err(Forbidden(AccessDeniedMessage))
    ensures StoreValid(db) && r.Ok? ==> TaskValid(r.value)
  {
    Authorize(db, caller, id, AccessDeniedMessage)
  }

  /** The update the handler sends: submitted fields replace stored ones (trimmed by
      the schema setters), and `completedAt` is stamped on the transition into
      Completed. */
  function ApplyPatch(prev: Task, patch: TaskPatch, now: int): Task {
    prev.(
      title := if patch.title.Some? then Trim(patch.title.value) else prev.title,
      description := if patch.description.Some? then Some(Trim(patch.description.value)) else prev.description,
      priority := patch.priority.GetOr(prev.priority),
      status := patch.status.GetOr(prev.status),
      deadline := if patch.deadline.Some? then patch.deadline else prev.deadline,
      tags := if patch.tags.Some? then TrimAll(patch.tags.value) else prev.tags,
      completedAt :=
        if patch.status == Some(Completed) && prev.status != Completed then Some(now) else prev.completedAt)
  }

  /** Only submitted fields change; the owner, the recurrence settings, the overdue
      flag and the creation time never do. `completedAt` becomes `now` exactly when
      the status moves into Completed from another status, and is kept otherwise. */
  lemma PatchChangesOnlySubmitted(prev: Task, patch: TaskPatch, now: int)
    ensures var t := ApplyPatch(prev, patch, now);
      && t.user == prev.user
      && t.recurring == prev.recurring
      && t.isOverdue == prev.isOverdue
      && t.createdAt == prev.createdAt
      && (patch.title.None? ==> t.title == prev.title)
      && (patch.description.None? ==> t.description == prev.description)
      && (patch.priority.None? ==> t.priority == prev.priority)
      && (patch.status.None? ==> t.status == prev.status)
      && (patch.deadline.None? ==> t.deadline == prev.deadline)
      && (patch.tags.None? ==> t.tags == prev.tags)
      && (patch.status.Some? ==> t.status == patch.status.value)
      && (patch.priority.Some? ==> t.priority == patch.priority.value)
      && (patch.deadline.Some? ==> t.deadline == patch.deadline)
      && (t.completedAt != prev.completedAt ==> t.completedAt == Some(now))
      && ((patch.status == Some(Completed) && prev.status != Completed) <==>
          (t.completedAt == Some(now) && t.status == Completed && prev.status != Completed))
      && (!(patch.status == Some(Completed) && prev.status != Completed) ==> t.completedAt == prev.completedAt)
  {
  }

  /** Repeating an update that marks a task Completed does not move `completedAt`. */
  lemma CompletedAtSetOnce(prev: Task, patch: TaskPatch, now: int, later: int)
    requires patch.status == Some(Completed)
    ensures var once := ApplyPatch(prev, patch, now);
      ApplyPatch(once, patch, later).completedAt == once.completedAt
  {
  }

  /** Submitted strings within the schema limits, in UTF-16 code units, and a
      submitted deadline a `Date` can hold. */
  predicate PatchWithinLimits(patch: TaskPatch) {
    && (patch.title.Some? ==> Utf16Length(patch.title.value) <= TitleMaxLength)
    && (patch.description.Some? ==> Utf16Length(patch.description.value) <= DescriptionMaxLength)
    && (patch.deadline.Some? ==> InTimeRange(patch.deadline.value))
  }

  /** A submitted title is not blank once trimmed, so the `required` validator that
      `runValidators` applies to the update passes. */
  predicate KeepsTitle(patch: TaskPatch) {
    patch.title.Some? ==> Trim(patch.title.value) != ""
  }

  /** A patch within the limits that keeps a title keeps a stored task valid. */
  lemma PatchKeepsValid(prev: Task, patch: TaskPatch, now: int)
    ensures TaskValid(prev) && PatchWithinLimits(patch) && KeepsTitle(patch) ==>
      TaskValid(ApplyPatch(prev, patch, now))
  {
  }

  /** Every body the update schema accepts is within the limits. */
  lemma ValidatedPatchWithinLimits(body: Body)
    requires ValidateUpdate(body).Valid?
    ensures PatchWithinLimits(ValidateUpdate(body).value)
  {
    UpdateRules(body);
  }

  /** PUT /api/tasks/:id. The body is validated before the task is looked up; the
      update validators then refuse a title that trims to "", which the handler
      answers with 500. */
  function Update(db: TaskStore, caller: UserId, id: TaskId, body: Body, now: int): (r: Reply<Task>)
    ensures r.result.Err? ==> r.db == db
    ensures r.result.Ok? <==>
      ValidateUpdate(body).Valid? && id in db.tasks && db.tasks[id].user == caller
      && KeepsTitle(ValidateUpdate(body).value)
    ensures (ValidateUpdate(body).Valid? && id in db.tasks && db.tasks[id].user == caller
             && !KeepsTitle(ValidateUpdate(body).value)) ==>
      r.result == Err(ServerError(UpdateFailedMessage))
    ensures r.result.Ok? ==>
      && r.db.tasks == db.tasks[id := r.result.value]
      && r.db.nextId == db.nextId
      && r.result.value == ApplyPatch(db.tasks[id], ValidateUpdate(body).value, now)
    ensures StoreValid(db) ==> StoreValid(r.db)
  {
    match ValidateUpdate(body)
    case Invalid(errors) => Reply(db, Err(ValidationFailed(errors)))
    case Valid(patch) =>
      match Authorize(db, caller, id, UpdateDeniedMessage)
      case Err(e) => Reply(db, Err(e))
      case Ok(prev) =>
        if !KeepsTitle(patch) then Reply(db, Err(ServerError(UpdateFailedMessage)))
        else
          ValidatedPatchWithinLimits(body);
          PatchKeepsValid(prev, patch, now);
          var t := ApplyPatch(prev, patch, now);
          Reply(TaskStore(db.tasks[id := t], db.nextId), Ok(t))
  }

  /** DELETE /api/tasks/:id. */
  function Delete(db: TaskStore, caller: UserId, id: TaskId): (r: Reply<()>)
    ensures r.result.Err? ==> r.db == db
    ensures r.result.Ok? <==> id in db.tasks && db.tasks[id].user == caller
    ensures StoreValid(db) ==> StoreValid(r.db)
  {
    match Authorize(db, caller, id, DeleteDeniedMessage)
    case Err(e) => Reply(db, Err(e))
    case Ok(_) => Reply(TaskStore(db.tasks - {id}, db.nextId), Ok(()))
  }

  /** A successful delete removes exactly that id and leaves every other task as it
      was; deleting it again is answered 404. */
  lemma DeleteRemovesExactlyOne(db: TaskStore, caller: UserId, id: TaskId)
    requires Delete(db, caller, id).result.Ok?
    ensures var after := Delete(db, caller, id).db;
      && after.tasks.Keys == db.tasks.Keys - {id}
      && |after.tasks| == |db.tasks| - 1
      && (forall other :: other in after.tasks ==> after.tasks[other] == db.tasks[other])
      && Delete(after, caller, id) == Reply(after, Err(NotFound(NotFoundMessage)))
  {
    var after := Delete(db, caller, id).db;
    assert after.tasks.Keys == db.tasks.Keys - {id};
  }

  /** The three ownership-gated handlers answer an absent id with 404 and another
      user's task with 403, and in both cases leave the store unchanged. */
  lemma OwnershipGate(db: TaskStore, caller: UserId, id: TaskId, body: Body, now: int)
    requires ValidateUpdate(body).Valid?
    ensures id !in db.tasks ==>
      && Get(db, caller, id) == Err(NotFound(NotFoundMessage))
      && Update(db, caller, id, body, now) == Reply(db, Err(NotFound(NotFoundMessage)))
      && Delete(db, caller, id) == Reply(db, Err(NotFound(NotFoundMessage)))
      && NotFound(NotFoundMessage).Status() == 404
    ensures id in db.tasks && db.tasks[id].user != caller ==>
      && Get(db, caller, id) == Err(Forbidden(AccessDeniedMessage))
      && Update(db, caller, id, body, now) == Reply(db, Err(Forbidden(UpdateDeniedMessage)))
      && Delete(db, caller, id) == Reply(db, Err(Forbidden(DeleteDeniedMessage)))
      && Forbidden(DeleteDeniedMessage).Status() == 403
  {
  }

  /** A created task is readable by its creator under the new id, and by nobody else. */
  lemma CreateThenGet(db: TaskStore, caller: UserId, other: UserId, body: Body, now: int)
    requires ValidateTask(body).Valid? && Trim(ValidateTask(body).value.title) != ""
    requires other != caller
    ensures var r := Create(db, caller, body, now);
      && Get(r.db, caller, db.nextId) == Ok(r.result.value)
      && Get(r.db, other, db.nextId) == Err(Forbidden(AccessDeniedMessage))
  {
  }

  // ---------------------------------------------------------------------------
  // GET /api/tasks

  /** The query string. An empty string is an omitted filter (JavaScript's falsy `""`);
      the date bounds arrive already parsed. */
  datatype ListQuery = ListQuery(
    status: string,
    priority: string,
    search: string,
    startDate: Option<int>,
    endDate: Option<int>,
    tags: string)

  const NoFilters: ListQuery := ListQuery("", "", "", None, None, "")

  predicate StatusFilter(t: Task, q: ListQuery) {
    q.status == "" || StatusName(t.status) == q.status
  }

  predicate PriorityFilter(t: Task, q: ListQuery) {
    q.priority == "" || PriorityName(t.priority) == q.priority
  }

  /** `search` matches the title or, when there is one, the description, ignoring case. */
  predicate SearchFilter(t: Task, q: ListQuery) {
    || q.search == ""
    || ContainsIgnoringCase(t.title, q.search)
    || (t.description.Some? && ContainsIgnoringCase(t.description.value, q.search))
  }

  /** The deadline range, both bounds inclusive; a task without a deadline fails any range. */
  predicate DeadlineFilter(t: Task, q: ListQuery) {
    || (q.startDate.None? && q.endDate.None?)
    || (&& t.deadline.Some?
        && (q.startDate.Some? ==> q.startDate.value <= t.deadline.value)
        && (q.endDate.Some? ==> t.deadline.value <= q.endDate.value))
  }

  /** `tags` is a comma-separated list; a task matches when it carries any of them. */
  predicate TagsFilter(t: Task, q: ListQuery) {
    q.tags == "" ||
    var wanted := Split(q.tags, ',');
    exists k :: 0 <= k < |wanted| && wanted[k] in t.tags
  }

  predicate Matches(t: Task, caller: UserId, q: ListQuery) {
    && t.user == caller
    && StatusFilter(t, q) && PriorityFilter(t, q) && SearchFilter(t, q)
    && DeadlineFilter(t, q) && TagsFilter(t, q)
  }

  /** The ids of the caller's tasks that pass every filter. Sorting is not modelled. */
  function List(db: TaskStore, caller: UserId, q: ListQuery): (r: set<TaskId>)
    ensures forall id :: id in r ==> id in db.tasks && db.tasks[id].user == caller
  {
    set id | id in db.tasks && Matches(db.tasks[id], caller, q)
  }

  /** Without filters the list is exactly the caller's tasks. */
  lemma ListWithoutFilters(db: TaskStore, caller: UserId)
    ensures List(db, caller, NoFilters) == set id | id in db.tasks && db.tasks[id].user == caller
  {
  }

  /** The filters combine with AND: the list for a query is the intersection of the
      lists for each of its filters alone. */
  lemma ListIsConjunction(db: TaskStore, caller: UserId, q: ListQuery)
    ensures List(db, caller, q) ==
      List(db, caller, NoFilters.(status := q.status))
      * List(db, caller, NoFilters.(priority := q.priority))
      * List(db, caller, NoFilters.(search := q.search))
      * List(db, caller, NoFilters.(startDate := q.startDate, endDate := q.endDate))
      * List(db, caller, NoFilters.(tags := q.tags))
  {
    forall id | id in db.tasks {
      MatchesIsConjunction(db.tasks[id], caller, q);
    }
  }

  /** A task matches a query exactly when it matches each of the query's filters alone. */
  lemma MatchesIsConjunction(t: Task, caller: UserId, q: ListQuery)
    ensures Matches(t, caller, q) <==>
      && Matches(t, caller, NoFilters.(status := q.status))
      && Matches(t, caller, NoFilters.(priority := q.priority))
      && Matches(t, caller, NoFilters.(search := q.search))
      && Matches(t, caller, NoFilters.(startDate := q.startDate, endDate := q.endDate))
      && Matches(t, caller, NoFilters.(tags := q.tags))
  {
  }

  /** A deadline range keeps exactly the caller's tasks whose deadline lies between
      the bounds, both included; tasks without a deadline drop out. */
  lemma ListDeadlineRange(db: TaskStore, caller: UserId, lo: int, hi: int)
    ensures List(db, caller, NoFilters.(startDate := Some(lo), endDate := Some(hi))) ==
      set id | id in db.tasks && db.tasks[id].user == caller && db.tasks[id].deadline.Some?
                 && lo <= db.tasks[id].deadline.value <= hi
  {
  }

  /** For a query naming tags `wanted` (comma-free, joined by commas), a task passes
      the tag filter exactly when it carries at least one of them. */
  lemma TagsFilterMeansAnyTag(t: Task, wanted: seq<string>)
    requires |wanted| > 0 && Join(wanted, ',') != ""
    requires forall k :: 0 <= k < |wanted| ==> ',' !in wanted[k]
    ensures TagsFilter(t, NoFilters.(tags := Join(wanted, ','))) <==>
      exists k :: 0 <= k < |wanted| && wanted[k] in t.tags
  {
    SplitJoin(wanted, ',');
  }
}
