/**
 The Task document (src/models/Task.js): field domains, enumerations, the
 defaults Mongoose fills in, the `trim` setters and the `required` /
 `maxlength` validators run when a document is created, and the in-memory
 store that stands for the `tasks` collection.
 */
module TaskModel {
  import opened Common
  import opened Text

  datatype Priority = Low | Medium | High
  datatype Status = Pending | InProgress | Completed
  datatype Frequency = Daily | Weekly

  function PriorityName(p: Priority): string {
    match p
    case Low => "Low"
    case Medium => "Medium"
    case High => "High"
  }

  function StatusName(s: Status): string {
    match s
    case Pending => "Pending"
    case InProgress => "In Progress"
    case Completed => "Completed"
  }

  function FrequencyName(f: Frequency): string {
    match f
    case Daily => "daily"
    case Weekly => "weekly"
  }

  const PriorityNames: seq<string> := ["Low", "Medium", "High"]
  const StatusNames: seq<string> := ["Pending", "In Progress", "Completed"]
  const FrequencyNames: seq<string> := ["daily", "weekly"]

  /** Reads an enumeration value back from its stored spelling. */
  function ParsePriority(s: string): (r: Option<Priority>)
    ensures r.Some? <==> s in PriorityNames
    ensures r.Some? ==> PriorityName(r.value) == s
  {
    if s == "Low" then Some(Low)
    else if s == "Medium" then Some(Medium)
    else if s == "High" then Some(High)
    else None
  }

  function ParseStatus(s: string): (r: Option<Status>)
    ensures r.Some? <==> s in StatusNames
    ensures r.Some? ==> StatusName(r.value) == s
  {
    if s == "Pending" then Some(Pending)
    else if s == "In Progress" then Some(InProgress)
    else if s == "Completed" then Some(Completed)
    else None
  }

  function ParseFrequency(s: string): (r: Option<Frequency>)
    ensures r.Some? <==> s in FrequencyNames
    ensures r.Some? ==> FrequencyName(r.value) == s
  {
    if s == "daily" then Some(Daily)
    else if s == "weekly" then Some(Weekly)
    else None
  }

  /** Every enumeration value is read back as itself from its spelling. */
  lemma NamesRoundTrip(p: Priority, s: Status, f: Frequency)
    ensures ParsePriority(PriorityName(p)) == Some(p)
    ensures ParseStatus(StatusName(s)) == Some(s)
    ensures ParseFrequency(FrequencyName(f)) == Some(f)
  {
  }

  const TitleMaxLength: nat := 100
  const DescriptionMaxLength: nat := 500

  /** The `recurring` sub-document; `frequency` may be absent. */
  datatype Recurring = Recurring(enabled: bool, frequency: Option<Frequency>)

  /** A stored task. `createdAt` is the Mongoose creation timestamp. */
  datatype Task = Task(
    title: string,
    description: Option<string>,
    priority: Priority,
    status: Status,
    deadline: Option<int>,
    isOverdue: bool,
    tags: seq<string>,
    user: UserId,
    completedAt: Option<int>,
    recurring: Recurring,
    createdAt: int)

  /** What every stored task satisfies: a title that is not blank, trimmed strings
      within their length limits (counted in UTF-16 code units), and a deadline a
      `Date` can hold. */
  predicate TaskValid(t: Task) {
    && IsTrimmed(t.title)
    && t.title != ""
    && Utf16Length(t.title) <= TitleMaxLength
    && (t.description.Some? ==>
          IsTrimmed(t.description.value) && Utf16Length(t.description.value) <= DescriptionMaxLength)
    && (forall i :: 0 <= i < |t.tags| ==> IsTrimmed(t.tags[i]))
    && (t.deadline.Some? ==> InTimeRange(t.deadline.value))
  }

  /** The object handed to `Task.create`: fields left out receive the schema defaults. */
  datatype RecurringDraft = RecurringDraft(enabled: Option<bool>, frequency: Option<Frequency>)

  datatype Draft = Draft(
    title: string,
    description: Option<string>,
    priority: Option<Priority>,
    status: Option<Status>,
    deadline: Option<int>,
    isOverdue: Option<bool>,
    tags: Option<seq<string>>,
    user: UserId,
    recurring: Option<RecurringDraft>)

  /** The document validators that can fail, and the cast of an Invalid Date deadline. */
  datatype ModelError = TitleRequired | TitleTooLong | DescriptionTooLong | DeadlineNotDate

  function TrimAll(xs: seq<string>): (r: seq<string>)
    ensures |r| == |xs|
    ensures forall i :: 0 <= i < |xs| ==> r[i] == Trim(xs[i])
  {
    seq(|xs|, i requires 0 <= i < |xs| => Trim(xs[i]))
  }

  function TrimOpt(s: Option<string>): Option<string> {
    if s.Some? then Some(Trim(s.value)) else None
  }

  /** Every validator violation of a draft, after the `trim` setters have run. */
  function ModelErrors(d: Draft): seq<ModelError> {
    var title := Trim(d.title);
    (if |title| == 0 then [TitleRequired] else [])
    + (if Utf16Length(title) > TitleMaxLength then [TitleTooLong] else [])
    + (if d.description.Some? && Utf16Length(Trim(d.description.value)) > DescriptionMaxLength
       then [DescriptionTooLong] else [])
    + (if d.deadline.Some? && !InTimeRange(d.deadline.value) then [DeadlineNotDate] else [])
  }

  /** `Task.create` on a draft at time `now`: trim, apply defaults, validate.
      The document is stored only when every validator passes. */
  function Build(d: Draft, now: int): (r: Result<Task, seq<ModelError>>)
    ensures r.Ok? <==>
      && Trim(d.title) != ""
      && Utf16Length(Trim(d.title)) <= TitleMaxLength
      && (d.description.Some? ==> Utf16Length(Trim(d.description.value)) <= DescriptionMaxLength)
      && (d.deadline.Some? ==> InTimeRange(d.deadline.value))
    ensures r.Err? ==> |r.error| > 0
    ensures r.Ok? ==> TaskValid(r.value)
    ensures r.Ok? ==>
      && r.value.title == Trim(d.title)
      && r.value.description == TrimOpt(d.description)
      && r.value.tags == TrimAll(d.tags.GetOr([]))
      && r.value.priority == d.priority.GetOr(Medium)
      && r.value.status == d.status.GetOr(Pending)
      && r.value.isOverdue == d.isOverdue.GetOr(false)
      && r.value.recurring.enabled == (d.recurring.Some? && d.recurring.value.enabled.GetOr(false))
      && r.value.recurring.frequency == (if d.recurring.Some? then d.recurring.value.frequency else None)
      && r.value.deadline == d.deadline
      && r.value.user == d.user
      && r.value.completedAt.None?
      && r.value.createdAt == now
  {
    var errors := ModelErrors(d);
    if |errors| > 0 then Err(errors)
    else
      var recurring :=
        if d.recurring.Some?
        then Recurring(d.recurring.value.enabled.GetOr(false), d.recurring.value.frequency)
        else Recurring(false, None);
      Ok(Task(
        title := Trim(d.title),
        description := TrimOpt(d.description),
        priority := d.priority.GetOr(Medium),
        status := d.status.GetOr(Pending),
        deadline := d.deadline,
        isOverdue := d.isOverdue.GetOr(false),
        tags := TrimAll(d.tags.GetOr([])),
        user := d.user,
        completedAt := None,
        recurring := recurring,
        createdAt := now))
  }

  /** The `tasks` collection: documents by id, and the next id the database hands out. */
  datatype TaskStore = TaskStore(tasks: map<TaskId, Task>, nextId: TaskId)

  /** Ids are below `nextId`, and every stored task is valid. */
  predicate StoreValid(db: TaskStore) {
    forall id :: id in db.tasks ==> id < db.nextId && TaskValid(db.tasks[id])
  }

  /** Stores `t` under a fresh id: no existing document is touched. */
  function Insert(db: TaskStore, t: Task): (r: TaskStore)
    ensures r.nextId == db.nextId + 1
    ensures r.tasks.Keys == db.tasks.Keys + {db.nextId} && r.tasks[db.nextId] == t
    ensures forall id :: id in db.tasks && id != db.nextId ==> r.tasks[id] == db.tasks[id]
    ensures StoreValid(db) ==> db.nextId !in db.tasks
    ensures StoreValid(db) && TaskValid(t) ==> StoreValid(r)
  {
    TaskStore(db.tasks[db.nextId := t], db.nextId + 1)
  }
}
