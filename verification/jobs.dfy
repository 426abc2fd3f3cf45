/**
 The two scheduled jobs (src/utils/jobs.js): the hourly sweep that flags tasks
 whose deadline has passed, and the daily run that creates the next instance of
 every recurring task. The schedule itself is not modelled: each job is a
 function of the store and the time it runs at.
 */
module Jobs {
  import opened Common
  import opened Text
  import opened TaskModel
  import opened Ordering

  // ---------------------------------------------------------------------------
  // The overdue sweep

  /** What the sweep's filter selects: a deadline before `now` on an unfinished task. */
  predicate Due(t: Task, now: int) {
    t.deadline.Some? && t.deadline.value < now && t.status != Completed
  }

  /** `Task.updateMany({ deadline: { $lt: now }, status: { $ne: "Completed" } }, { isOverdue: true })`. */
  function Sweep(db: TaskStore, now: int): (r: TaskStore)
    ensures r.nextId == db.nextId && r.tasks.Keys == db.tasks.Keys
    ensures forall id :: id in r.tasks ==>
      (r.tasks[id].isOverdue <==> db.tasks[id].isOverdue || Due(db.tasks[id], now))
    ensures forall id :: id in r.tasks ==> r.tasks[id].(isOverdue := db.tasks[id].isOverdue) == db.tasks[id]
  {
    TaskStore(map id | id in db.tasks :: if Due(db.tasks[id], now) then db.tasks[id].(isOverdue := true) else db.tasks[id],
              db.nextId)
  }

  /** After a sweep every due task is flagged, no flag has been cleared, and a task
      that is not due (no deadline, a future deadline, or Completed) is untouched. */
  lemma SweepFlagsDueOnly(db: TaskStore, now: int, id: TaskId)
    requires id in db.tasks
    ensures Due(db.tasks[id], now) ==> Sweep(db, now).tasks[id].isOverdue
    ensures db.tasks[id].isOverdue ==> Sweep(db, now).tasks[id].isOverdue
    ensures !Due(db.tasks[id], now) ==> Sweep(db, now).tasks[id] == db.tasks[id]
  {
  }

  /** Sweeping twice at the same time is sweeping once. */
  lemma SweepIdempotent(db: TaskStore, now: int)
    ensures Sweep(Sweep(db, now), now) == Sweep(db, now)
  {
    var once := Sweep(db, now);
    var twice := Sweep(once, now);
    assert forall id :: id in once.tasks ==> Due(once.tasks[id], now) == Due(db.tasks[id], now);
    assert twice.tasks == once.tasks;
  }

  /** A later sweep subsumes an earlier one: everything due then is still due. */
  lemma SweepLaterSubsumes(db: TaskStore, earlier: int, later: int)
    requires earlier <= later
    ensures Sweep(Sweep(db, earlier), later) == Sweep(db, later)
  {
    var a := Sweep(Sweep(db, earlier), later);
    var b := Sweep(db, later);
    forall id | id in a.tasks ensures a.tasks[id] == b.tasks[id] {
      assert Due(db.tasks[id], earlier) ==> Due(db.tasks[id], later);
    }
    assert a.tasks == b.tasks;
  }

  /** The sweep keeps every stored task valid. */
  lemma SweepKeepsValid(db: TaskStore, now: int)
    requires StoreValid(db)
    ensures StoreValid(Sweep(db, now))
  {
  }

  /** The sweep only ever sets the flag: a task completed after it was flagged stays flagged. */
  lemma SweepKeepsStaleFlag(t: Task, now: int)
    requires t.status == Completed && t.isOverdue
    ensures var db := TaskStore(map[0 := t], 1);
      Sweep(db, now).tasks[0].isOverdue && !Due(t, now)
  {
  }

  // ---------------------------------------------------------------------------
  // Recurring tasks

  /** The clone's deadline offset for a frequency. */
  function Step(f: Frequency): (ms: int)
    ensures ms > 0
  {
    match f
    case Daily => MsPerDay
    case Weekly => 7 * MsPerDay
  }

  /** A source the loop makes a clone for: enabled tasks with no frequency are skipped. */
  predicate Cloneable(t: Task) {
    t.recurring.frequency.Some?
  }

  /** The clone's deadline: the source's, one period later. */
  function NextDeadline(t: Task): int
    requires Cloneable(t) && t.deadline.Some?
  {
    t.deadline.value + Step(t.recurring.frequency.value)
  }

  /** The object the loop hands to `Task.create` for source `t`. */
  function CloneDraft(t: Task): Draft
    requires Cloneable(t) && t.deadline.Some?
  {
    Draft(t.title, t.description, Some(t.priority), None,
          Some(NextDeadline(t)), None, Some(t.tags), t.user,
          Some(RecurringDraft(Some(t.recurring.enabled), t.recurring.frequency)))
  }

  /** The clone that a valid source yields: the source's title, description, priority,
      tags, owner and recurrence; the deadline one period later; the defaults for
      status, overdue flag and completion time; created at `now`. */
  function CloneOf(t: Task, now: int): (c: Task)
    requires Cloneable(t) && t.deadline.Some?
    ensures c.deadline.Some? && c.deadline.value - t.deadline.value == Step(t.recurring.frequency.value)
    ensures c.status == Pending && !c.isOverdue && c.completedAt.None?
    ensures c.user == t.user && c.recurring == t.recurring
    ensures TaskValid(t) && InTimeRange(c.deadline.value) ==> TaskValid(c)
  {
    Task(t.title, t.description, t.priority, Pending,
         Some(NextDeadline(t)), false, t.tags, t.user,
         None, t.recurring, now)
  }

  /** Creating the clone of a valid source fails exactly when the shifted deadline
      leaves the `Date` range (the Invalid Date does not cast); the source's title is
      not blank and its strings are within the limits. Otherwise it stores exactly
      `CloneOf`. */
  lemma CloneBuild(t: Task, now: int)
    requires Cloneable(t) && t.deadline.Some?
    ensures TaskValid(t) ==> (Build(CloneDraft(t), now).Ok? <==> InTimeRange(NextDeadline(t)))
    ensures TaskValid(t) && InTimeRange(NextDeadline(t)) ==> Build(CloneDraft(t), now) == Ok(CloneOf(t, now))
  {
    if TaskValid(t) {
      CloneDraftTrimmed(t);
      if InTimeRange(NextDeadline(t)) {
        CloneBuildValue(t, now);
      }
    }
  }

  lemma CloneBuildValue(t: Task, now: int)
    requires TaskValid(t) && Cloneable(t) && t.deadline.Some?
    requires Build(CloneDraft(t), now).Ok?
    ensures Build(CloneDraft(t), now).value == CloneOf(t, now)
  {
    var d := CloneDraft(t);
    CloneDraftTrimmed(t);
    var v := Build(d, now).value;
    assert v.recurring == t.recurring;
  }

  /** `Task.create` on the clone draft of source `t`: for a valid source it fails
      exactly when the shifted deadline is out of the `Date` range, and otherwise
      stores exactly `CloneOf`. */
  function CreateClone(t: Task, now: int): (r: Result<Task, seq<ModelError>>)
    requires Cloneable(t) && t.deadline.Some?
    ensures TaskValid(t) ==> (r.Ok? <==> InTimeRange(NextDeadline(t)))
    ensures TaskValid(t) && r.Ok? ==> r.value == CloneOf(t, now)
  {
    CloneBuild(t, now);
    Build(CloneDraft(t), now)
  }

  /** The clone draft of a valid source is left as it is by the `trim` setters. */
  lemma CloneDraftTrimmed(t: Task)
    requires TaskValid(t) && Cloneable(t) && t.deadline.Some?
    ensures var d := CloneDraft(t);
      Trim(d.title) == t.title && TrimOpt(d.description) == t.description && TrimAll(d.tags.value) == t.tags
  {
    TrimOfTrimmed(t.title);
    if t.description.Some? {
      TrimOfTrimmed(t.description.value);
    }
    TrimAllOfTrimmed(t.tags);
  }

  /** Trimming strings that are already trimmed changes nothing. */
  lemma TrimAllOfTrimmed(xs: seq<string>)
    requires forall i :: 0 <= i < |xs| ==> IsTrimmed(xs[i])
    ensures TrimAll(xs) == xs
  {
    forall i | 0 <= i < |xs| ensures TrimAll(xs)[i] == xs[i] {
      TrimOfTrimmed(xs[i]);
    }
  }

  /** A source that stops the run: a clone is due but there is no deadline to shift,
      so reading it throws, or the shifted deadline is an Invalid Date, so creating
      the clone throws. */
  predicate Blocks(t: Task) {
    Cloneable(t) && (t.deadline.None? || !InTimeRange(NextDeadline(t)))
  }

  /** The enabled tasks with ids from `k` on, in id order: the `find` the run starts from. */
  function EnabledFrom(db: TaskStore, k: nat): (r: seq<TaskId>)
    ensures StrictlyAscending(r)
    ensures forall id :: id in r <==> k <= id < db.nextId && id in db.tasks && db.tasks[id].recurring.enabled
    decreases db.nextId - k
  {
    if k >= db.nextId then []
    else
      var rest := EnabledFrom(db, k + 1);
      if k in db.tasks && db.tasks[k].recurring.enabled then
        AscendingCons(k, rest);
        [k] + rest
      else rest
  }

  /** The loop over the sources, read from `snapshot` (the result of the initial `find`,
      so clones made during the run are not themselves cloned). `finished` is false
      when the run stopped early. */
  datatype RegenRun = RegenRun(db: TaskStore, finished: bool)

  function CloneLoop(db: TaskStore, snapshot: map<TaskId, Task>, srcs: seq<TaskId>, now: int): (r: RegenRun)
    requires forall i :: 0 <= i < |srcs| ==> srcs[i] in snapshot
    ensures db.nextId <= r.db.nextId
    decreases |srcs|
  {
    if srcs == [] then RegenRun(db, true)
    else
      var t := snapshot[srcs[0]];
      if !Cloneable(t) then CloneLoop(db, snapshot, srcs[1..], now)
      else if t.deadline.None? then RegenRun(db, false)
      else
        match CreateClone(t, now)
        case Err(_) => RegenRun(db, false)
        case Ok(c) => CloneLoop(Insert(db, c), snapshot, srcs[1..], now)
  }

  /** The loop keeps the store valid. */
  lemma {:induction false} CloneLoopKeepsValid(db: TaskStore, snapshot: map<TaskId, Task>, srcs: seq<TaskId>, now: int)
    requires StoreValid(db)
    requires forall i :: 0 <= i < |srcs| ==> srcs[i] in snapshot
    ensures StoreValid(CloneLoop(db, snapshot, srcs, now).db)
    decreases |srcs|
  {
    if srcs != [] {
      var t := snapshot[srcs[0]];
      if !Cloneable(t) {
        CloneLoopKeepsValid(db, snapshot, srcs[1..], now);
      } else if t.deadline.Some? {
        var b := CreateClone(t, now);
        if b.Ok? {
          CloneLoopKeepsValid(Insert(db, b.value), snapshot, srcs[1..], now);
        }
      }
    }
  }

  /** The loop adds tasks only under ids it hands out itself. */
  lemma {:induction false} CloneLoopAddsFresh(db: TaskStore, snapshot: map<TaskId, Task>, srcs: seq<TaskId>, now: int)
    requires forall i :: 0 <= i < |srcs| ==> srcs[i] in snapshot
    ensures var r := CloneLoop(db, snapshot, srcs, now);
      forall id :: id in r.db.tasks ==> id in db.tasks || db.nextId <= id < r.db.nextId
    decreases |srcs|
  {
    if srcs != [] {
      var t := snapshot[srcs[0]];
      if !Cloneable(t) {
        CloneLoopAddsFresh(db, snapshot, srcs[1..], now);
      } else if t.deadline.Some? {
        var b := CreateClone(t, now);
        if b.Ok? {
          var db' := Insert(db, b.value);
          CloneLoopAddsFresh(db', snapshot, srcs[1..], now);
          var r := CloneLoop(db', snapshot, srcs[1..], now);
          assert CloneLoop(db, snapshot, srcs, now) == r;
          assert db'.tasks.Keys == db.tasks.Keys + {db.nextId};
        }
      }
    }
  }

  /** Whatever the store, the loop leaves every task below the first fresh id as it was. */
  lemma {:induction false} CloneLoopKeepsBelow(db: TaskStore, snapshot: map<TaskId, Task>, srcs: seq<TaskId>, now: int, id: TaskId)
    requires forall i :: 0 <= i < |srcs| ==> srcs[i] in snapshot
    requires id in db.tasks && id < db.nextId
    ensures var r := CloneLoop(db, snapshot, srcs, now);
      id in r.db.tasks && r.db.tasks[id] == db.tasks[id]
    decreases |srcs|
  {
    if srcs != [] {
      var t := snapshot[srcs[0]];
      if !Cloneable(t) {
        CloneLoopKeepsBelow(db, snapshot, srcs[1..], now, id);
      } else if t.deadline.Some? {
        var b := CreateClone(t, now);
        if b.Ok? {
          CloneLoopKeepsBelow(Insert(db, b.value), snapshot, srcs[1..], now, id);
        }
      }
    }
  }

  /** `handleRecurringTasks` run at time `now`. */
  function RegenerateRecurring(db: TaskStore, now: int): (r: RegenRun)
    ensures db.nextId <= r.db.nextId
  {
    CloneLoop(db, db.tasks, EnabledFrom(db, 0), now)
  }

  /** In a valid store a run keeps every existing task as it was, puts new tasks only
      under fresh ids, and leaves the store valid. */
  lemma RegenerateRecurringKeeps(db: TaskStore, now: int)
    requires StoreValid(db)
    ensures var r := RegenerateRecurring(db, now);
      && StoreValid(r.db)
      && (forall id :: id in db.tasks ==> id in r.db.tasks && r.db.tasks[id] == db.tasks[id])
      && (forall id :: id in r.db.tasks && id !in db.tasks ==> db.nextId <= id < r.db.nextId)
  {
    var srcs := EnabledFrom(db, 0);
    CloneLoopKeepsValid(db, db.tasks, srcs, now);
    CloneLoopAddsFresh(db, db.tasks, srcs, now);
    forall id | id in db.tasks
      ensures id in RegenerateRecurring(db, now).db.tasks
      ensures RegenerateRecurring(db, now).db.tasks[id] == db.tasks[id]
    {
      CloneLoopKeepsBelow(db, db.tasks, srcs, now, id);
    }
  }

  // The reference description of a run.

  /** A source in the snapshot that stops the run. */
  predicate BlocksAt(snapshot: map<TaskId, Task>, id: TaskId) {
    id in snapshot && Blocks(snapshot[id])
  }

  /** A source in the snapshot that gets a clone unless the run stopped before it. */
  predicate CloneableAt(snapshot: map<TaskId, Task>, id: TaskId) {
    id in snapshot && Cloneable(snapshot[id])
  }

  /** The position of the first source that stops the run, or `|srcs|` if none does. */
  function FirstBlocked(snapshot: map<TaskId, Task>, srcs: seq<TaskId>): (n: nat)
    ensures n <= |srcs|
  {
    if srcs == [] then 0
    else if BlocksAt(snapshot, srcs[0]) then 0
    else 1 + FirstBlocked(snapshot, srcs[1..])
  }

  /** No source before position `FirstBlocked` blocks, and the one at it does. */
  lemma {:induction false} FirstBlockedMeans(snapshot: map<TaskId, Task>, srcs: seq<TaskId>)
    ensures var n := FirstBlocked(snapshot, srcs);
      && (forall i :: 0 <= i < n ==> !BlocksAt(snapshot, srcs[i]))
      && (n < |srcs| ==> BlocksAt(snapshot, srcs[n]))
  {
    if srcs != [] && !BlocksAt(snapshot, srcs[0]) {
      FirstBlockedMeans(snapshot, srcs[1..]);
      var n := FirstBlocked(snapshot, srcs);
      forall i | 0 <= i < n ensures !BlocksAt(snapshot, srcs[i]) {
        if i > 0 {
          assert srcs[i] == srcs[1..][i - 1];
        }
      }
    }
  }

  /** The sources that get a clone, in order. */
  function Made(snapshot: map<TaskId, Task>, srcs: seq<TaskId>): (r: seq<TaskId>)
    ensures |r| <= |srcs|
  {
    if srcs == [] then []
    else
      var rest := Made(snapshot, srcs[1..]);
      if CloneableAt(snapshot, srcs[0]) then [srcs[0]] + rest else rest
  }

  /** `Made` keeps exactly the cloneable sources, and in their order. */
  lemma {:induction false} MadeMeans(snapshot: map<TaskId, Task>, srcs: seq<TaskId>)
    ensures var r := Made(snapshot, srcs);
      && (forall x :: x in r <==> x in srcs && CloneableAt(snapshot, x))
      && (StrictlyAscending(srcs) ==> StrictlyAscending(r))
  {
    if srcs != [] {
      MadeMeans(snapshot, srcs[1..]);
      var rest := Made(snapshot, srcs[1..]);
      assert forall x :: x in srcs <==> x == srcs[0] || x in srcs[1..];
      if CloneableAt(snapshot, srcs[0]) && StrictlyAscending(srcs) {
        AscendingUncons(srcs);
        AscendingCons(srcs[0], rest);
      }
    }
  }

  /** `store` holds, from id `base` on and in order, the clones of the sources `made`. */
  predicate ClonesAt(store: TaskStore, base: nat, snapshot: map<TaskId, Task>, made: seq<TaskId>, now: int)
    decreases |made|
  {
    made == [] ||
    (&& base in store.tasks
     && CloneableAt(snapshot, made[0]) && snapshot[made[0]].deadline.Some?
     && store.tasks[base] == CloneOf(snapshot[made[0]], now)
     && ClonesAt(store, base + 1, snapshot, made[1..], now))
  }

  /** The `j`-th source in `made` has its clone under id `base + j`. */
  lemma {:induction false} ClonesAtIndex(store: TaskStore, base: nat, snapshot: map<TaskId, Task>, made: seq<TaskId>, now: int, j: nat)
    requires ClonesAt(store, base, snapshot, made, now) && j < |made|
    ensures base + j in store.tasks
    ensures CloneableAt(snapshot, made[j]) && snapshot[made[j]].deadline.Some?
    ensures store.tasks[base + j] == CloneOf(snapshot[made[j]], now)
    decreases j
  {
    if j > 0 {
      ClonesAtIndex(store, base + 1, snapshot, made[1..], now, j - 1);
    }
  }

  /** Past a source that does not block, the reference description moves on by one. */
  lemma PassStep(snapshot: map<TaskId, Task>, srcs: seq<TaskId>)
    requires |srcs| > 0 && !BlocksAt(snapshot, srcs[0])
    ensures var n := FirstBlocked(snapshot, srcs);
      && n == 1 + FirstBlocked(snapshot, srcs[1..])
      && Made(snapshot, srcs[..n]) ==
           (if CloneableAt(snapshot, srcs[0]) then [srcs[0]] else []) + Made(snapshot, srcs[1..][..n - 1])
  {
    var n := FirstBlocked(snapshot, srcs);
    assert srcs[..n][0] == srcs[0];
    assert srcs[..n][1..] == srcs[1..][..n - 1];
  }

  /** The reference description of a run over `srcs`: it makes, under the ids from
      `base` on and in source order, the clone of every cloneable source before the
      first one that blocks, and it finishes exactly when no source blocks. */
  predicate RunMatches(r: RegenRun, base: nat, snapshot: map<TaskId, Task>, srcs: seq<TaskId>, now: int) {
    var n := FirstBlocked(snapshot, srcs);
    var made := Made(snapshot, srcs[..n]);
    && (r.finished <==> n == |srcs|)
    && r.db.nextId == base + |made|
    && ClonesAt(r.db, base, snapshot, made, now)
  }

  /** The loop meets the reference description. */
  lemma {:induction false} CloneLoopSpec(db: TaskStore, snapshot: map<TaskId, Task>, srcs: seq<TaskId>, now: int)
    requires forall i :: 0 <= i < |srcs| ==> srcs[i] in snapshot && TaskValid(snapshot[srcs[i]])
    ensures RunMatches(CloneLoop(db, snapshot, srcs, now), db.nextId, snapshot, srcs, now)
    decreases |srcs|, 1
  {
    if srcs == [] {
    } else if Blocks(snapshot[srcs[0]]) {
      BlockStep(db, snapshot, srcs, now);
    } else if !Cloneable(snapshot[srcs[0]]) {
      SkipSpec(db, snapshot, srcs, now);
    } else {
      CloneSpec(db, snapshot, srcs, now);
    }
  }

  lemma {:induction false} SkipSpec(db: TaskStore, snapshot: map<TaskId, Task>, srcs: seq<TaskId>, now: int)
    requires |srcs| > 0
    requires forall i :: 0 <= i < |srcs| ==> srcs[i] in snapshot && TaskValid(snapshot[srcs[i]])
    requires !Cloneable(snapshot[srcs[0]])
    ensures RunMatches(CloneLoop(db, snapshot, srcs, now), db.nextId, snapshot, srcs, now)
    decreases |srcs|, 0
  {
    CloneLoopSpec(db, snapshot, srcs[1..], now);
    SkipStep(db, snapshot, srcs, now);
  }

  lemma {:induction false} CloneSpec(db: TaskStore, snapshot: map<TaskId, Task>, srcs: seq<TaskId>, now: int)
    requires |srcs| > 0
    requires forall i :: 0 <= i < |srcs| ==> srcs[i] in snapshot && TaskValid(snapshot[srcs[i]])
    requires Cloneable(snapshot[srcs[0]]) && !Blocks(snapshot[srcs[0]])
    ensures RunMatches(CloneLoop(db, snapshot, srcs, now), db.nextId, snapshot, srcs, now)
    decreases |srcs|, 0
  {
    var db' := Insert(db, CloneOf(snapshot[srcs[0]], now));
    assert forall i :: 0 <= i < |srcs[1..]| ==> srcs[1..][i] == srcs[i + 1];
    CloneLoopSpec(db', snapshot, srcs[1..], now);
    CloneStepRun(db, snapshot, srcs, now);
    var r := CloneLoop(db', snapshot, srcs[1..], now);
    assert db'.nextId == db.nextId + 1;
    RunMatchesCons(r, db.nextId, snapshot, srcs, now);
  }

  /** The run finishes exactly when no source blocks. */
  lemma {:induction false} LoopFinishes(db: TaskStore, snapshot: map<TaskId, Task>, srcs: seq<TaskId>, now: int)
    requires forall i :: 0 <= i < |srcs| ==> srcs[i] in snapshot && TaskValid(snapshot[srcs[i]])
    ensures CloneLoop(db, snapshot, srcs, now).finished <==> FirstBlocked(snapshot, srcs) == |srcs|
    decreases |srcs|
  {
    if srcs != [] {
      var t := snapshot[srcs[0]];
      if Cloneable(t) && t.deadline.Some? {
        LoopFinishes(Insert(db, CloneOf(t, now)), snapshot, srcs[1..], now);
      } else if !Cloneable(t) {
        LoopFinishes(db, snapshot, srcs[1..], now);
      }
    }
  }

  /** A source that blocks ends the run there, unfinished and with nothing made. */
  lemma BlockStep(db: TaskStore, snapshot: map<TaskId, Task>, srcs: seq<TaskId>, now: int)
    requires |srcs| > 0 && forall i :: 0 <= i < |srcs| ==> srcs[i] in snapshot
    requires TaskValid(snapshot[srcs[0]]) && Blocks(snapshot[srcs[0]])
    ensures RunMatches(CloneLoop(db, snapshot, srcs, now), db.nextId, snapshot, srcs, now)
  {
    assert CloneLoop(db, snapshot, srcs, now) == RegenRun(db, false);
    assert FirstBlocked(snapshot, srcs) == 0;
    assert Made(snapshot, srcs[..0]) == [];
  }

  /** A source without a frequency is passed over. */
  lemma SkipStep(db: TaskStore, snapshot: map<TaskId, Task>, srcs: seq<TaskId>, now: int)
    requires |srcs| > 0 && forall i :: 0 <= i < |srcs| ==> srcs[i] in snapshot
    requires !Cloneable(snapshot[srcs[0]])
    requires RunMatches(CloneLoop(db, snapshot, srcs[1..], now), db.nextId, snapshot, srcs[1..], now)
    ensures RunMatches(CloneLoop(db, snapshot, srcs, now), db.nextId, snapshot, srcs, now)
  {
    PassStep(snapshot, srcs);
    var n := FirstBlocked(snapshot, srcs);
    assert CloneLoop(db, snapshot, srcs, now) == CloneLoop(db, snapshot, srcs[1..], now);
    assert Made(snapshot, srcs[..n]) == Made(snapshot, srcs[1..][..n - 1]);
  }

  /** A run that matches the rest of the sources from `base + 1`, and holds the clone of
      the first source under `base`, matches all of them from `base`. */
  lemma RunMatchesCons(r: RegenRun, base: nat, snapshot: map<TaskId, Task>, srcs: seq<TaskId>, now: int)
    requires |srcs| > 0 && CloneableAt(snapshot, srcs[0]) && !BlocksAt(snapshot, srcs[0])
    requires base in r.db.tasks && r.db.tasks[base] == CloneOf(snapshot[srcs[0]], now)
    requires RunMatches(r, base + 1, snapshot, srcs[1..], now)
    ensures RunMatches(r, base, snapshot, srcs, now)
  {
    var made' := Made(snapshot, srcs[1..][..FirstBlocked(snapshot, srcs[1..])]);
    PassStep(snapshot, srcs);
    ClonesAtCons(r.db, base, snapshot, srcs[0], made', now);
  }

  lemma ClonesAtCons(store: TaskStore, base: nat, snapshot: map<TaskId, Task>, x: TaskId, made: seq<TaskId>, now: int)
    requires CloneableAt(snapshot, x) && snapshot[x].deadline.Some?
    requires base in store.tasks && store.tasks[base] == CloneOf(snapshot[x], now)
    requires ClonesAt(store, base + 1, snapshot, made, now)
    ensures ClonesAt(store, base, snapshot, [x] + made, now)
  {
    assert ([x] + made)[1..] == made;
  }

  /** The run over `srcs` is the run over the rest from the store with the first
      clone inserted, and that clone survives the rest of the run. */
  lemma CloneStepRun(db: TaskStore, snapshot: map<TaskId, Task>, srcs: seq<TaskId>, now: int)
    requires |srcs| > 0 && forall i :: 0 <= i < |srcs| ==> srcs[i] in snapshot
    requires TaskValid(snapshot[srcs[0]]) && Cloneable(snapshot[srcs[0]]) && !Blocks(snapshot[srcs[0]])
    ensures var c := CloneOf(snapshot[srcs[0]], now);
      var r := CloneLoop(Insert(db, c), snapshot, srcs[1..], now);
      && CloneLoop(db, snapshot, srcs, now) == r
      && db.nextId in r.db.tasks && r.db.tasks[db.nextId] == c
  {
    var c := CloneOf(snapshot[srcs[0]], now);
    var db' := Insert(db, c);
    CloneLoopKeepsBelow(db', snapshot, srcs[1..], now, db.nextId);
  }

  /** In a valid store a run leaves every existing task as it was and adds the clones
      of the enabled tasks with a frequency up to the first one that blocks; it
      finishes exactly when no enabled task blocks. */
  lemma RegenerateRecurringSpec(db: TaskStore, now: int)
    requires StoreValid(db)
    ensures var r := RegenerateRecurring(db, now);
      var srcs := EnabledFrom(db, 0);
      var made := Made(db.tasks, srcs[..FirstBlocked(db.tasks, srcs)]);
      && (r.finished <==> forall id :: id in db.tasks && db.tasks[id].recurring.enabled ==> !Blocks(db.tasks[id]))
      && r.db.nextId == db.nextId + |made|
      && ClonesAt(r.db, db.nextId, db.tasks, made, now)
      && (forall id :: id in made ==> id in db.tasks && db.tasks[id].recurring.enabled)
  {
    CloneLoopSpec(db, db.tasks, EnabledFrom(db, 0), now);
    FinishesIffNoneBlocks(db);
    MadeAreEnabled(db);
  }

  /** No enabled task blocks exactly when the first blocking source is past the end. */
  lemma FinishesIffNoneBlocks(db: TaskStore)
    requires StoreValid(db)
    ensures var srcs := EnabledFrom(db, 0);
      FirstBlocked(db.tasks, srcs) == |srcs| <==>
        forall id :: id in db.tasks && db.tasks[id].recurring.enabled ==> !Blocks(db.tasks[id])
  {
    var srcs := EnabledFrom(db, 0);
    var n := FirstBlocked(db.tasks, srcs);
    FirstBlockedMeans(db.tasks, srcs);
    if n == |srcs| {
      forall id | id in db.tasks && db.tasks[id].recurring.enabled ensures !Blocks(db.tasks[id]) {
        assert id in srcs;
        var i :| 0 <= i < |srcs| && srcs[i] == id;
      }
    } else {
      assert srcs[n] in srcs;
    }
  }

  /** Only enabled tasks of the store are sources of clones. */
  lemma MadeAreEnabled(db: TaskStore)
    ensures var srcs := EnabledFrom(db, 0);
      forall id :: id in Made(db.tasks, srcs[..FirstBlocked(db.tasks, srcs)]) ==>
        id in db.tasks && db.tasks[id].recurring.enabled
  {
    var srcs := EnabledFrom(db, 0);
    var n := FirstBlocked(db.tasks, srcs);
    MadeMeans(db.tasks, srcs[..n]);
    forall id | id in Made(db.tasks, srcs[..n]) ensures id in db.tasks && db.tasks[id].recurring.enabled {
      InTake(srcs, n, id);
    }
  }

  lemma InTake(s: seq<TaskId>, n: nat, x: TaskId)
    requires n <= |s| && x in s[..n]
    ensures x in s
  {
    var i :| 0 <= i < n && s[..n][i] == x;
    assert s[i] == x;
  }

  lemma TakeAll(s: seq<TaskId>)
    ensures s[..|s|] == s
  {
  }

  /** A daily source's clone is due one day after it, a weekly source's seven days after. */
  lemma CloneDeadline(t: Task, now: int)
    requires Cloneable(t) && t.deadline.Some?
    ensures t.recurring.frequency == Some(Daily) ==> CloneOf(t, now).deadline.value == t.deadline.value + 86400000
    ensures t.recurring.frequency == Some(Weekly) ==> CloneOf(t, now).deadline.value == t.deadline.value + 604800000
  {
  }

  /** When nothing blocks, every enabled task with a frequency gets exactly one clone. */
  lemma OneClonePerSource(db: TaskStore, now: int, id: TaskId)
    requires StoreValid(db)
    requires RegenerateRecurring(db, now).finished
    requires id in db.tasks && db.tasks[id].recurring.enabled && Cloneable(db.tasks[id])
    ensures var srcs := EnabledFrom(db, 0);
      var made := Made(db.tasks, srcs[..FirstBlocked(db.tasks, srcs)]);
      && id in made
      && StrictlyAscending(made)
  {
    var srcs := EnabledFrom(db, 0);
    var n := FirstBlocked(db.tasks, srcs);
    assert srcs[..n] == srcs by {
      LoopFinishes(db, db.tasks, srcs, now);
      TakeAll(srcs);
    }
    MadeMeans(db.tasks, srcs);
    assert id in Made(db.tasks, srcs) by {
      assert id < db.nextId;
      assert id in srcs;
    }
  }
}
