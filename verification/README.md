# Productivity Management Dashboard API — a Dafny model

This project models the decision logic of a personal task-management REST API in Dafny:

- user registration and login;
- per-user create, read, update, delete and list of tasks;
- the request-body schemas that guard those routes;
- the dashboard figures: overview, statistics and productivity score;
- the two scheduled jobs: the hourly overdue sweep and the daily regeneration of recurring tasks.

The database is an immutable value. Tasks live in `TaskStore(tasks: map<TaskId, Task>, nextId)`. Accounts live in `UserTable(users: map<UserId, User>, nextId)`. Ids are handed out in ascending order, so id order is insertion order, and a "first match" query (`findOne`) picks the smallest matching id. Time is an integer number of milliseconds. Every handler is a pure function from the store and the request to the reply and the new store.

Files, one module each:

| file | module | what it holds |
|---|---|---|
| common.dfy | Common | `Option`, `Result`, ids, milliseconds per day |
| text.dfy | Text | whitespace trimming, alphanumerics, comma split/join, case-insensitive substring |
| ordering.dfy | Ordering | strictly ascending id sequences |
| task_model.dfy | TaskModel | the task document: enums, defaults, trim setters, length limits, store validity |
| validation.dfy | Validation | JSON bodies, the four schemas, error collection (`validateRequest`) |
| responses.dfy | Responses | error replies and their HTTP status codes |
| auth.dfy | Auth | register and login |
| tasks.dfy | TaskRoutes | the task routes and the list filter |
| dashboard.dfy | Dashboard | overview, productivity score and level, statistics and completion trend |
| jobs.dfy | Jobs | the overdue sweep and recurring-task regeneration |

Parameters stand in for code outside the model:

- Password hashing and comparison are `Crypto(hash, matches)`.
- The e-mail grammar is `isEmail: string -> bool`.
- The calendar date one month before `now` is `monthAgo`.
- A signed token is `Token(userId)`, the only claim it carries.

String lengths are counted as JavaScript counts them, in UTF-16 code units (`Text.Utf16Length`): a character outside the Basic Multilingual Plane counts twice towards every length limit. Whitespace is ECMAScript's: the Unicode space separators, the line terminators, tab, vertical tab, form feed and the byte-order mark. A date is a JavaScript time value: milliseconds from the epoch, at most 8,640,000,000,000,000 either way (section 21.4.1.1 of ECMA-262, `Common.InTimeRange`). A body date outside that range is refused as not a date, a stored deadline always lies inside it, and a `Date` pushed outside it is an Invalid Date, which the task model refuses to store. Joi checks a field's allowed values before its type, so a value that is not a string, given for an enum field, is reported twice: not an allowed value, then not a string.

`Math.round` on the exact ratio `n / d` is `RoundRatio(n, d) = (2n + d) / (2d)`. This is `floor(n/d + 1/2)`: halves round upward, as in JavaScript.

The model follows the code wherever the code differs from the project's own description:

- The overdue sweep only ever sets `isOverdue`. It never clears the flag, so a completed task flagged earlier keeps it (`Jobs.SweepKeepsStaleFlag`). It does not recompute the flag as "deadline past and not completed".
- An update does not recompute `isOverdue`.
- A task created with status Completed gets no `completedAt`; only an update into Completed sets it.
- Body validation runs before the existence and ownership checks. An invalid update body is answered with 400 even for a missing or foreign task.
- Regeneration clones only enabled tasks whose frequency is `daily` or `weekly`. An enabled task with no frequency gets no clone.
- A cloned-for task without a deadline throws, and the thrown error ends the whole run. Clones made before the failure remain. A stored task always has a non-blank title within the limits, so creating the clone of a valid source cannot fail while the shifted deadline stays within the `Date` range. A shifted deadline outside it is an Invalid Date: `Task.create` throws a cast error, and that too ends the run.
- An update runs the model's validators (`runValidators`). A title that trims to nothing passes the request schema but fails the model's `required` rule, so the update is answered with 500 "Error updating task" and the store is unchanged. A create body whose title trims to nothing likewise gets 500 "Error creating task".
- The list of recurring tasks is read once, before any clone is created. Clones made in a run are not themselves cloned in that run.
- The score is rounded first and then clamped (`src/routes/dashboard.js:199`). For this formula the order makes no difference.

## Model

| member | source | states |
|---|---|---|
| `Dashboard.CompletionRate` | src/routes/dashboard.js:39-40 | 0 when there are no tasks; otherwise the integer r with r − ½ ≤ 100·completed/total < r + ½; within [0, 100] whenever completed ≤ total |
| `Dashboard.RoundRatio` | src/routes/dashboard.js:199 | rounding n/d gives the integer r with r − ½ ≤ n/d < r + ½ |
| `Dashboard.RoundRatioUnique` | src/routes/dashboard.js:199 | that integer is unique, so any r within half a unit of n/d is the rounded value |
| `Dashboard.GetOverview` | src/routes/dashboard.js:21-40 | the total is the number of the caller's tasks; the pending, in-progress and completed counts are the numbers of the caller's tasks with that status, and add up to the total; the overdue count is the number of the caller's flagged tasks, at most the total; the rate is in [0, 100], 0 with no tasks, otherwise the rounded percentage of completed tasks |
| `Dashboard.StatusPartition` | src/routes/dashboard.js:21-33 | the Pending, In Progress and Completed counts add up to the caller's task count |
| `Dashboard.PriorityPartition` | src/routes/dashboard.js:95-103 | the Low, Medium and High counts add up to the caller's task count |
| `Dashboard.FlaggedAreOwned` | src/routes/dashboard.js:34-37 | the overdue count never exceeds the caller's task count |
| `Dashboard.VolumeBonus` | src/routes/dashboard.js:183-191 | the bonus is a multiple of 10 between 10 and 40 |
| `Dashboard.VolumeBonusTiers` | src/routes/dashboard.js:183-191 | the volume bonus is one of 40/30/20/10; it is 40 exactly when total ≤ 10, 30 exactly when 10 < total ≤ 30, 20 exactly when 30 < total ≤ 60, and 10 exactly when total > 60; it never grows with the task count |
| `Dashboard.RawScore` | src/routes/dashboard.js:178-199 | the unclamped score is the integer r with r − ½ ≤ 60·completed/total + bonus − 5·overdue < r + ½ |
| `Dashboard.Clamp` | src/routes/dashboard.js:199 | the result lies in [0, 100]; a value already in range is kept; a negative value gives 0 and a value above 100 gives 100 |
| `Dashboard.Score` | src/routes/dashboard.js:176-199 | the score lies in [0, 100], and is 0 when the caller has no tasks |
| `Dashboard.ScoreFormula` | src/routes/dashboard.js:178-199 | before clamping, the rounded score is bonus − 5·overdue + ⌊(120·completed + total) / (2·total)⌋ |
| `Dashboard.OverduePenalty` | src/routes/dashboard.js:194-196 | each further overdue task lowers the rounded, unclamped score by exactly 5 |
| `Dashboard.ScoreAntitoneInOverdue` | src/routes/dashboard.js:194-199 | with completed and total fixed, more overdue tasks never raise the final score |
| `Dashboard.LevelThresholds` | src/routes/dashboard.js:201-204 | the level is Expert exactly from 80, Advanced exactly from 60 below 80, Intermediate exactly from 40 below 60, and Beginner exactly below 40 |
| `Dashboard.LevelMonotone` | src/routes/dashboard.js:201-204 | the level never drops as the score rises: Beginner at the higher score means Beginner at the lower, and Expert at the lower means Expert at the higher |
| `Dashboard.GetProductivityScore` | src/routes/dashboard.js:161-216 | the score is the formula's score of the overview's completed, total and overdue counts, in [0, 100]; the level is that score's level; no tasks gives 0 and Beginner; the reported rate and counts are those of the overview |
| `Dashboard.ScoreExamples` | src/routes/dashboard.js:176-214 | 10 of 10 done, none overdue, scores 100 (Expert); 20 of 40 done, 3 overdue, scores 35 (Beginner); 0 of 5 done with 10 overdue has the raw score −10 and scores 0; the rates for 1/3, 2/3 and 1/8 are 33, 67 and 13 |
| `Dashboard.WindowStart` | src/routes/dashboard.js:72-79 | the statistics window never starts after `now` when the month-back date is not in the future |
| `Dashboard.WindowStartCases` | src/routes/dashboard.js:70-79 | the window starts 7 days back for "week" and when no period is given; at the month-back date for "month"; at `now` for any other period |
| `Dashboard.WiderWindowCountsMore` | src/routes/dashboard.js:81-92 | an earlier window start counts at least as many completed and as many created tasks |
| `Dashboard.PriorityDistribution` | src/routes/dashboard.js:95-103 | only priorities that occur are listed; each listed count is the number of the caller's tasks with that priority; the counts add up to the caller's total |
| `Dashboard.StatusDistribution` | src/routes/dashboard.js:105-114 | only statuses that occur are listed; each listed count is the number of the caller's tasks with that status; the counts add up to the caller's total |
| `Dashboard.AddCompletion` | src/routes/dashboard.js:125-133 | adding one completion to the day buckets keeps them strictly ascending by day with positive counts, and adds that day to the set of days |
| `Dashboard.AddCompletionCounts` | src/routes/dashboard.js:125-133 | adding one completion raises the total and that day's count by one, and no other day's count |
| `Dashboard.TrendBelow` | src/routes/dashboard.js:117-134 | the buckets over the ids below k are strictly ascending by day, each with a positive count |
| `Dashboard.TrendBelowCounts` | src/routes/dashboard.js:117-134 | after scanning ids below k, each day's count is the number of the caller's recent completions on that day, and the total is the number of recent completions |
| `Dashboard.CompletionTrend` | src/routes/dashboard.js:117-134 | the trend's buckets are strictly ascending by day, and each has a positive count |
| `Dashboard.TrendCountsRecentCompletions` | src/routes/dashboard.js:117-134 | the bucket counts add up to the caller's Completed tasks whose completedAt falls in the last 7 days, and each day's count is the number of those on that day |
| `Dashboard.GetStatistics` | src/routes/dashboard.js:67-147 | echoes the period, defaulting to "week"; the period counts are bounded by the caller's task count; the trend is ascending; no more completions in the period than Completed tasks |
| `Dashboard.StatisticsAgreeWithOverview` | src/routes/dashboard.js:82-134 | the status distribution equals the overview's status counts; the priority distribution covers every task; over the week window the trend adds up to the completions counted for the period |
| `Jobs.Sweep` | src/utils/jobs.js:9-16 | the same ids remain; a task is flagged afterwards exactly when it was flagged before or is due (a deadline before `now` and not Completed); no other field changes |
| `Jobs.SweepFlagsDueOnly` | src/utils/jobs.js:10-16 | a due task gets flagged; a flagged task stays flagged; a task that is not due is left exactly as it was |
| `Jobs.SweepIdempotent` | src/utils/jobs.js:10-16 | a second sweep at the same time changes nothing |
| `Jobs.SweepLaterSubsumes` | src/utils/jobs.js:9-16 | an hourly sweep followed by a later one equals the later sweep alone |
| `Jobs.SweepKeepsValid` | src/utils/jobs.js:10-16 | the sweep keeps the store valid |
| `Jobs.SweepKeepsStaleFlag` | src/utils/jobs.js:10-16 | a Completed task flagged earlier keeps its flag although it is not due: the sweep never clears the flag |
| `Jobs.CloneDeadline` | src/utils/jobs.js:34-55 | a daily clone's deadline is the source's plus 86,400,000 ms; a weekly clone's is the source's plus 604,800,000 ms |
| `Jobs.CloneOf` | src/utils/jobs.js:36-55 | a clone's deadline is the source's advanced by one step; it is Pending, not overdue and has no completedAt; it keeps the owner and the recurring settings; it is valid when the source is and the shifted deadline lies within the `Date` range |
| `Jobs.CloneBuild` | src/utils/jobs.js:36-44 | for a valid source, creating the clone succeeds exactly when the shifted deadline lies within the `Date` range, and then yields exactly the clone: the source's title, description, priority, tags, owner and recurring settings, with the shifted deadline |
| `Jobs.CreateClone` | src/utils/jobs.js:47-55 | for a valid source, `Task.create` on the clone fields fails exactly when the shifted deadline leaves the `Date` range, and otherwise stores exactly the clone |
| `Jobs.CloneLoop` | src/utils/jobs.js:33-62 | the loop never lowers the next id |
| `Jobs.RegenerateRecurring` | src/utils/jobs.js:28-62 | a run never lowers the next id |
| `Jobs.EnabledFrom` | src/utils/jobs.js:29-31 | the recurring sources are, in ascending id order, exactly the stored tasks with `recurring.enabled` |
| `Jobs.CloneLoopKeepsBelow` | src/utils/jobs.js:33-57 | the clone loop never modifies or deletes a task that was already stored |
| `Jobs.CloneLoopAddsFresh` | src/utils/jobs.js:33-57 | every task the clone loop adds has a fresh id, between the old and the new next id |
| `Jobs.RegenerateRecurringKeeps` | src/utils/jobs.js:29-57 | a run keeps the store valid, leaves every existing task as it was, and adds tasks only under fresh ids |
| `Jobs.FirstBlockedMeans` | src/utils/jobs.js:36-55 | the run stops at the first source that has a daily or weekly frequency but either no deadline or a deadline whose shift leaves the `Date` range; no earlier source blocks |
| `Jobs.MadeMeans` | src/utils/jobs.js:33-56 | the sources that receive a clone are exactly those whose frequency is daily or weekly, in ascending order |
| `Jobs.LoopFinishes` | src/utils/jobs.js:33-62 | the clone loop runs to the end exactly when no source blocks |
| `Jobs.RegenerateRecurringSpec` | src/utils/jobs.js:29-62 | the run finishes exactly when no enabled task blocks; it adds one task per cloned source, under consecutive ids in source order, each the clone of its source; every cloned source is enabled |
| `Jobs.OneClonePerSource` | src/utils/jobs.js:33-56 | in a finished run, every enabled daily or weekly task is among the cloned sources, and each appears there exactly once |
| `TaskRoutes.Create` | src/routes/tasks.js:15-50 | an invalid body is answered with its errors and the store is unchanged; creation succeeds exactly for a valid body whose trimmed title is not blank, and a blank one gets 500 "Error creating task"; on success the task goes in under the next id; it belongs to the caller; it is overdue exactly when the deadline is before `now` and the status is not Completed; title, description and tags are the trimmed input; deadline and recurring settings are the input's; completedAt is unset; validity is preserved |
| `TaskRoutes.ValidatedTaskWithinLimits` | src/middleware/validation.js:50-52 | an accepted create body has a title of at most 100 and a description of at most 500 UTF-16 code units, and any deadline within the `Date` range |
| `TaskRoutes.Get` | src/routes/tasks.js:127-152 | succeeds exactly for an existing task of the caller and returns it; a missing id gives 404 "Task not found"; another user's task gives 403 "Not authorized to access this task"; a task read from a valid store is valid |
| `TaskRoutes.Authorize` | src/routes/tasks.js:131-147 | succeeds exactly for an existing task of the caller; a missing id gives "Task not found"; another user's task gives the route's Forbidden message |
| `TaskRoutes.OwnershipGate` | src/routes/tasks.js:127-239 | get, update and delete of a missing id all answer 404; of another user's task they answer 403 with their own messages; the store is unchanged in both cases |
| `TaskRoutes.CreateThenGet` | src/routes/tasks.js:127-152 | the creator reads back the task just created, and any other user is refused with 403 |
| `TaskRoutes.PatchChangesOnlySubmitted` | src/routes/tasks.js:188-198 | an update changes only submitted fields; owner, recurring settings, overdue flag and creation time never change; completedAt becomes `now` exactly on a transition into Completed and is otherwise kept |
| `TaskRoutes.CompletedAtSetOnce` | src/routes/tasks.js:190-193 | repeating an update to Completed later keeps the completedAt of the first transition |
| `TaskRoutes.PatchKeepsValid` | src/routes/tasks.js:195-198 | a patch within the length limits whose title, if any, does not trim to nothing, applied to a valid task, gives a valid task |
| `TaskRoutes.ValidatedPatchWithinLimits` | src/middleware/validation.js:67-69 | an accepted update body respects the title and description length limits, and any deadline lies within the `Date` range |
| `TaskRoutes.Update` | src/routes/tasks.js:166-213 | succeeds exactly for a valid body on an existing task of the caller whose new title, if any, does not trim to nothing; such a blank title gets 500 "Error updating task"; the task is replaced by the patched task and nothing else changes; failures leave the store unchanged; validity is preserved |
| `TaskRoutes.Delete` | src/routes/tasks.js:219-241 | succeeds exactly for an existing task of the caller; failures leave the store unchanged; validity is preserved |
| `TaskRoutes.DeleteRemovesExactlyOne` | src/routes/tasks.js:241 | a delete removes exactly that id, keeps every other task as it was, and a second delete of the id answers 404 |
| `TaskRoutes.List` | src/routes/tasks.js:69 | every listed task exists and belongs to the caller |
| `TaskRoutes.ListWithoutFilters` | src/routes/tasks.js:69-106 | with no filter the list is exactly the caller's tasks |
| `TaskRoutes.MatchesIsConjunction` | src/routes/tasks.js:69-104 | a task matches a query exactly when it matches each of the query's filters alone |
| `TaskRoutes.ListIsConjunction` | src/routes/tasks.js:69-104 | the list for a query is the intersection of the lists for each of its filters alone |
| `TaskRoutes.ListDeadlineRange` | src/routes/tasks.js:90-98 | a deadline range keeps the caller's tasks whose deadline lies between the bounds, both included, and drops tasks without a deadline |
| `TaskRoutes.TagsFilterMeansAnyTag` | src/routes/tasks.js:101-104 | a comma-separated tag list matches a task exactly when the task carries at least one of the listed tags |
| `TaskModel.ParsePriority` | src/models/Task.js:16-23 | a stored priority string is accepted exactly when it is Low, Medium or High, and reads back to the same spelling |
| `TaskModel.ParseStatus` | src/models/Task.js:24-31 | a stored status string is accepted exactly when it is Pending, In Progress or Completed, and reads back to the same spelling |
| `TaskModel.ParseFrequency` | src/models/Task.js:53-59 | a frequency string is accepted exactly when it is daily or weekly, and reads back to the same spelling |
| `TaskModel.NamesRoundTrip` | src/models/Task.js:16-31 | every priority, status and frequency reads back from its own spelling |
| `TaskModel.Build` | src/models/Task.js:3-62 | creation succeeds exactly when the trimmed title has 1 to 100 UTF-16 code units, any trimmed description at most 500, and any deadline lies within the `Date` range; a failure carries at least one error; a stored task is valid, with trimmed strings and the defaults Medium, Pending, not overdue, recurring disabled; the owner is the caller; completedAt is unset |
| `TaskModel.Insert` | src/routes/tasks.js:24-34 | the task is stored under the next id, every other task is kept, and the next id grows by one; inserting a valid task into a valid store uses a fresh id and keeps the store valid |
| `Text.Trim` | src/models/Task.js:8 | the trimmed string starts and ends with no ECMAScript whitespace, and is no longer than the input, in characters and in UTF-16 code units |
| `Text.TrimMeans` | src/models/Task.js:8 | the trimmed string is the input with only ECMAScript whitespace removed at each end |
| `Text.Utf16Length` | src/middleware/validation.js:36-68 | a string's length in UTF-16 code units lies between its character count and twice that |
| `Text.Utf16LengthBmp` | src/middleware/validation.js:36-68 | the length in code units equals the character count exactly when every character lies in the Basic Multilingual Plane |
| `Text.Utf16LengthConcat` | src/middleware/validation.js:35-65 | the UTF-16 length of a concatenation is the sum of the lengths |
| `Text.TrimIdempotent` | src/models/Task.js:8 | trimming twice is trimming once |
| `Text.Split` | src/routes/tasks.js:102 | splitting on a comma gives at least one part, no part contains a comma, and joining the parts with commas gives back the input |
| `Text.SplitJoin` | src/routes/tasks.js:102 | splitting comma-free parts joined by commas gives back the parts |
| `Validation.Check` | src/middleware/validation.js:6-23 | a body is accepted exactly when it conforms to the schema, and the accepted value is built from it; a refusal carries a non-empty list of every error found |
| `Validation.ValidateTask` | src/middleware/validation.js:6-23 | a create body is accepted exactly when it conforms to the task schema; a refusal carries at least one error |
| `Validation.ValidateUpdate` | src/middleware/validation.js:6-23 | an update body is accepted exactly when it conforms to the update schema; a refusal carries at least one error |
| `Validation.OnlyErrors` | src/middleware/validation.js:6-8 | a value that is not a string is reported as outside the allowed values of every `valid(...)` rule of its field, before the type error |
| `Validation.UpdateNumberPriority` | src/middleware/validation.js:67-70 | an update body `{"priority": 5}` is refused with two errors on `priority`: not one of Low, Medium, High, then not a string |
| `Validation.StringErrors` | src/middleware/validation.js:6-8 | a string has no errors exactly when every rule holds, lengths counted in UTF-16 code units; every broken rule is reported |
| `Validation.UnknownKeyErrors` | src/middleware/validation.js:6-8 | every key the schema does not know is reported as not allowed |
| `Validation.FieldsErrors` | src/middleware/validation.js:6-8 | the fields have no errors exactly when each conforms, and every field's errors are reported |
| `Validation.ValueErrors` | src/middleware/validation.js:6-14 | a value has no errors exactly when it conforms to its schema |
| `Validation.ReportsBrokenRule` | src/middleware/validation.js:6-14 | a broken rule on any string field is in the error list, with the field as its path |
| `Validation.RegisterCollectsEveryError` | src/middleware/validation.js:6-14 | a register body with a bad username and a short password gets all three errors in one reply |
| `Validation.RegisterRules` | src/middleware/validation.js:35-41 | registration needs only the keys username, email and password; an alphanumeric username of 3 to 30 code units; an e-mail address; a password of at least 6 code units |
| `Validation.RegisterFields` | src/middleware/validation.js:35-41 | the register fields conform exactly when the username is an alphanumeric string of 3 to 30 code units, the e-mail is an address and the password a string of at least 6 code units |
| `Validation.LoginRules` | src/middleware/validation.js:43-48 | login needs only the keys email and password, an e-mail address and any password string |
| `Validation.TaskRules` | src/middleware/validation.js:50-65 | a create body needs a title of at most 100 code units; each optional field is checked: description length, enum priority and status, a number within the `Date` range, a string array, the recurring object; no other key is allowed |
| `Validation.TaskDefaults` | src/middleware/validation.js:53-58 | a missing priority defaults to Medium and a missing status to Pending; given values are kept |
| `Validation.TaskRejectsUnknownPriority` | src/middleware/validation.js:53-55 | a priority outside Low, Medium and High is refused, and the error names the allowed values |
| `Validation.RecurringField` | src/middleware/validation.js:61-64 | recurring, if present, is an object with at most a boolean `enabled` and a `frequency` of daily or weekly |
| `Validation.UpdateRules` | src/middleware/validation.js:67-74 | an update body needs at least one key; only title, description, priority, status, deadline and tags are allowed, each with its rule; the patch holds exactly the submitted fields, each with the submitted value |
| `Validation.UpdatePatchSubmitted` | src/middleware/validation.js:67-74 | each of the six fields is in the patch exactly when the body has it, and then holds the body's string, enum spelling, number or list of strings |
| `Validation.UpdateRejectsForeignKey` | src/middleware/validation.js:67-74 | any other key in an update body, such as `user` or `recurring`, is refused as not allowed |
| `Validation.DeadlineOutOfRangeRejected` | src/middleware/validation.js:59-72 | a body whose deadline is a number outside the `Date` range is refused by both the create and the update schema, with a not-a-date error on `deadline` |
| `Validation.UpdateRejectsEmpty` | src/middleware/validation.js:74 | an empty update body is refused with a single error: too few keys |
| `Auth.Register` | src/routes/auth.js:19-52 | registration succeeds exactly for a valid body whose e-mail and username are both free; a failure leaves the table unchanged; success stores the hashed password under the next id and answers with a token and a summary for that id |
| `Auth.RegisterRefusesDuplicate` | src/routes/auth.js:24-31 | a taken e-mail or username is refused with 400 "Email or username already exists" and the table is unchanged |
| `Auth.RegisterKeepsUnique` | src/routes/auth.js:24-40 | registration keeps e-mail addresses and usernames unique; a success adds exactly one account under a fresh id, and the token and the summary name that id |
| `Auth.AddKeepsUnique` | src/routes/auth.js:34-38 | adding an account whose e-mail and username are free keeps both unique and grows the table by one |
| `Auth.RegisteredAccount` | src/routes/auth.js:34-51 | a successful registration had a well-formed e-mail and a non-empty password; it stores the body's username, e-mail and hashed password, and answers with that account's summary |
| `Auth.FindByEmail` | src/routes/auth.js:79 | the lookup finds the account with that e-mail and the smallest id, or reports that no account has it |
| `Auth.Login` | src/routes/auth.js:66-110 | a successful login names an account with the submitted e-mail whose hash matches the password, and returns that account's summary; every 401 says "Invalid credentials" |
| `Auth.LoginFailuresIdentical` | src/routes/auth.js:79-96 | an unknown e-mail and a wrong password give the same 401 "Invalid credentials" reply |
| `Auth.LoginSucceedsIff` | src/routes/auth.js:79-98 | login succeeds exactly when an account has the e-mail and its hash matches the password; the token then names that account |
| `Auth.LoginBody` | src/middleware/validation.js:43-48 | a body with just an e-mail address and a password is accepted as it is |
| `Auth.RegisterThenLogin` | src/routes/auth.js:21-109 | a freshly registered account can log in with its e-mail and password, and gets the same token and summary as at registration |

## Left out

- Route ids that are not valid ObjectIds: `Task.findById` throws a cast error, and get, update and delete answer 500 ("Error fetching task", "Error updating task", "Error deleting task"). A task id here is a natural number, so every id is well formed.
- Query values that are arrays or objects: Express can parse `?tags=a&tags=b` into an array, on which `tags.split` throws (500), and `?status[$ne]=x` into an operator object. The model takes every query value to be a plain string.
- Sorting (`sortBy`) and `populate` in the task list: the list is modelled as a set of ids. `TaskRoutes.List` therefore says nothing about order.
- The search filter's regular-expression semantics: the search text is taken literally, as a case-insensitive substring of the title or the description. Case folding covers ASCII letters only.
- Parsing of date strings, and Joi's conversion of strings to dates and booleans: dates in a body are JSON numbers of milliseconds, and only their range is checked.
- Joi's e-mail grammar is the parameter `isEmail`. Joi's refusal of empty strings is not modelled. So the login route's "Please provide email and password" branch is reachable in the model.
- The rendering of error paths with `path.join(".")`: paths stay lists of keys and indices. The human-readable error messages are replaced by a `Violation` value.
- The `updatedAt` timestamp, and all logging.
- Floating point: scores and rates use exact rational arithmetic. The only possible difference from IEEE doubles is a value exactly halfway between two integers.
- Calendar months and time zones: the month-back date is the parameter `monthAgo`. Today's midnight in `/overview` is computed but never used, so it is not modelled. A trend day is the UTC day number `ms / 86400000`, which orders days as the `%Y-%m-%d` keys do. The week window starts exactly 7 × 86,400,000 ms before `now`; the code's `setDate(getDate() - 7)` works in local time, which differs by an hour across a daylight-saving change.
- bcrypt, `matchPassword` and JWT signing: these are the parameters `Crypto.hash`, `Crypto.matches` and `Token`. The secret and the expiry are not modelled. The User model and the `protect` middleware are not part of this model; the caller is an authenticated user id.
- Server errors (status 500) from the database itself: a pure store cannot fail. The 500 replies caused by the model's own `required` rule are modelled.
- JSON bodies with a repeated key: `JSON.parse` keeps the last occurrence, while the model's `Lookup` takes the first. Such bodies are outside the model.
- Surrogate code units on their own: a Dafny character is a Unicode scalar value, so a lone surrogate cannot be written. A character outside the Basic Multilingual Plane is counted as two code units.
- cron scheduling and any interleaving of the jobs with request handlers: each job run and each request is one atomic step.
- Express wiring, CORS, security headers and start-up (`src/app.js`, `src/server.js`).
- `Dashboard.GetStatistics`: its contract bounds the period counts instead of restating their definitions. `Dashboard.StatisticsAgreeWithOverview` and `Dashboard.TrendCountsRecentCompletions` relate them to the other figures.
- `Jobs.RegenerateRecurring`: its own contract states only that the next id never goes down. What a run does is stated by `Jobs.RegenerateRecurringSpec`, `Jobs.RegenerateRecurringKeeps` and `Jobs.OneClonePerSource`.
- `Jobs.CloneLoop`: its own contract states only that the next id never goes down. What the loop does is stated by `Jobs.LoopFinishes`, `Jobs.CloneLoopKeepsBelow` and `Jobs.CloneLoopAddsFresh`.
- `TaskRoutes.List`: states only ownership; the meaning of the filters is given by `TaskRoutes.ListWithoutFilters`, `TaskRoutes.ListIsConjunction`, `TaskRoutes.ListDeadlineRange` and `TaskRoutes.TagsFilterMeansAnyTag`.
