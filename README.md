# Task lifecycle and scheduling core of openInApp-Task, in Dafny

openInApp-Task is an Express/Mongoose task tracker. A user owns tasks. Each task has a
due date, an urgency tier (0–3) and a status (`TODO`, `IN_PROGRESS`, `DONE`). A task
has subtasks, each complete (1) or not (0). Two daily jobs run over the data. One
recomputes every active task's tier. The other phones the owners of overdue tasks.
Deletion is soft: a `deletedAt` stamp marks a deleted record.

This project models that core and proves properties of the model:

- `helper.dfy` (`Helper`) covers the date rules of `src/utils/helper.js`:
  - the tier of a due date (`CalculateTaskPriority`);
  - the past-date test (`IsNotPastDate`);
  - the canonical date-string test (`IsValidDate`).

  It also contains a proleptic Gregorian calendar and the reading of `YYYY-MM-DD`
  strings that `new Date` performs, day roll-over included. Dates are day numbers
  (days since 1970-01-01). Instants are millisecond timestamps. Each clock reading is
  a parameter; updateTask takes two, one before and one after its database lookup.
- `js.dfy` (`Js`) defines the JavaScript built-ins the handlers rely on:
  - `trim` and `toUpperCase`;
  - `parseInt`, and the cast to Number that Mongoose applies;
  - truthiness of request values;
  - `filter` and `findIndex`.
- `api.dfy` (`Api`) holds the error values the handlers throw and the
  `Option`/`Result` types.
- `models.dfy` (`Models`) holds the Task, SubTask and User records and their schema
  enumerations.
- `db.dfy` (`Db`) defines the `Store` class. It holds the three collections as
  sequences, with the `create` and in-place update writes that keep ids unique, plus
  the `findOne` lookups the handlers make.
- `fields.dfy` (`Fields`) covers the required-field guard of the two create
  handlers, as written and as intended (see Findings).
- `subtask_controller.dfy` (`SubTaskController`) covers:
  - `updateSubTask` with its status checks, and the re-derivation of the parent
    task's status from the distinct states of its subtasks;
  - `createSubTask`;
  - the two subtask list handlers.
- `task_controller.dfy` (`TaskController`) covers:
  - `createTask`;
  - the match stages of `getAllUserTasks`;
  - `updateTask` with its checks, tier recomputation and the DONE cascade to
    subtasks;
  - `deleteTask` with its soft-delete cascade.
- `task_crons.dfy` (`TaskCrons`) covers the nightly refresh of tiers, as a loop over
  the task collection.
- `calling_crons.dfy` (`CallingCrons`) covers the daily reminder job:
  - selection of the overdue tasks;
  - their owners, sorted by user priority;
  - the text of each reminder;
  - the sequential dispatch through a scripted telephony `Notifier`, which stops at
    the first failed call.

Where the code and the project's own description differ, the model follows the code:

- The aggregation rule gives `IN_PROGRESS` for a task with no subtasks at all. The
  code tests only for exactly one distinct state, so the empty set falls through to
  `IN_PROGRESS`. In updateSubTask the empty case cannot occur: the subtask just
  updated is always among the task's subtasks (`UpdatedSubTaskIsAggregated`).
- Any overdue date gets tier 1, however far in the past.
- The status aggregation and the DONE cascade both include soft-deleted subtasks.
- The reminder job has no per-call error isolation: the first failed call ends the
  run.
- The subtask schema declares no title or description, so a stored subtask has
  neither.
- The required-field guard of the two create handlers never fires (see Findings).
  In createTask, a blank or missing due date fails the due-date check (400). An
  empty title or description then fails Mongoose's `required` validation, which the
  default error handler answers with 500. A title of white space alone is stored.
  createSubTask stores a subtask whatever its title and description.

## Model

| member | source | states |
|---|---|---|
| Helper.DueInstantReached | src/crons/calling.crons.js:9-11 | A due date stored as the midnight starting its day is `<= now` exactly when the due day is today or earlier |
| Helper.CeilDays | src/utils/helper.js:10 | `Math.ceil(ms / day)` is the least whole number of days covering `ms` |
| Helper.DiffDays | src/utils/helper.js:6-10 | With both dates pinned to 23:59:59.999 of their day, the ceiling of the day difference is the difference of the day numbers, whatever the time of day |
| Helper.CalculateTaskPriority | src/utils/helper.js:1-21 | The tier is in {0,1,2,3}, the schema's enum. It is 0 exactly when the due date is today. Every past date gets tier 1 |
| Helper.PriorityBands | src/utils/helper.js:14-20 | 1–2 days ahead gives tier 1, 3–4 days gives tier 2, 5 or more gives tier 3 |
| Helper.PriorityMonotone | src/utils/helper.js:12-20 | Among dates that are not past, a later due date never gets a lower tier |
| Helper.IsNotPastDate | src/utils/helper.js:23-32 | True exactly when the due day is today or later. Equivalently, the day difference calculateTaskPriority uses is non-negative |
| Helper.PastDateTier | src/utils/helper.js:12-15 | A date that isNotPastDate rejects always lands in tier 1 |
| Helper.DayNumberCountsDays | src/utils/helper.js:35-38 | 1970-01-01 is day 0, and the calendar's next date has the next day number |
| Helper.RollOver | src/utils/helper.js:35 | A day past the end of its month becomes a real date of the next month with the same day number |
| Helper.ParseDate | src/utils/helper.js:35 | `new Date` on a date-only string gives a date exactly when the string has the `YYYY-MM-DD` shape with a month of 1–12 and a day of 1–31. That date is a real calendar date with the day number of the fields as written, so a day past the month's end rolls over |
| Helper.Render | src/utils/helper.js:38 | `toISOString().slice(0, 10)` yields a `YYYY-MM-DD` string whose fields are the date's year, month and day |
| Helper.IsValidDate | src/utils/helper.js:34-40 | A string isValidDate accepts has the `YYYY-MM-DD` shape and is read field for field |
| Helper.ValidDateIsCalendarDate | src/utils/helper.js:34-40 | isValidDate accepts exactly the ten-character `YYYY-MM-DD` strings whose fields form a real calendar date |
| Helper.RenderParseRoundTrip | src/utils/helper.js:34-40 | Rendering a date and reading it back gives the same date, and every rendering passes isValidDate |
| Helper.OverflowingDayRefused | src/utils/helper.js:35-38 | A day past its month's end, such as Feb 30, parses to a date in another month, so isValidDate refuses it |
| Helper.BadMonthRefused | src/utils/helper.js:35-37 | Month 0 or 13 and above is an Invalid Date and is refused |
| Helper.ValidDateLength | src/utils/helper.js:38 | Only ten-character strings are valid, so unpadded fields are refused |
| Js.Trim | src/controllers/task.controller.js:17 | `trim()` gives the empty string exactly for strings made only of white space |
| Js.ToUpperCase | src/controllers/task.controller.js:175 | `toUpperCase` keeps the length and maps each character to its upper-case form |
| Js.UpperCaseIdempotent | src/controllers/task.controller.js:175 | Upper-casing an already upper-cased string changes nothing |
| Js.ParseInt | src/controllers/subTask.controller.js:138 | parseInt reads nothing (NaN) from a string of white space alone. The same reading filters priorities at src/controllers/task.controller.js:73 |
| Js.ParseIntReadsLeadingDigits | src/controllers/subTask.controller.js:138 | parseInt reads a leading run of decimal digits and ignores whatever follows it |
| Js.ParseIntSkipsLeadingBlank | src/controllers/subTask.controller.js:138 | White space in front of a numeral does not change what parseInt reads |
| Js.ParseIntReadsHex | src/controllers/subTask.controller.js:138 | parseInt reads a `0x` literal in base 16 |
| Js.CastAgreesWithParseInt | src/controllers/subTask.controller.js:138-147 | For the spellings the modelled cast accepts (white space around an optional sign and decimal digits, or around a `0x` literal), parseInt reads the same value unless the string is blank |
| Js.PaddedNumeralIsRead | src/controllers/subTask.controller.js:138-147 | `" 1 "` is 1 for both parseInt and the cast |
| Js.HexNumeralIsRead | src/controllers/subTask.controller.js:138-147 | `"0x1"` is 1 for both parseInt and the cast |
| Js.TrailingLettersSplitTheReadings | src/controllers/subTask.controller.js:138-147 | parseInt reads 1 from `"1abc"`, while the cast refuses it |
| Js.NumberCast | src/controllers/subTask.controller.js:143-147 | Number reads nothing from `""` (Mongoose turns it into null), 0 from white space alone, a plain run of decimal digits as its decimal value and a `0x` literal in base 16 |
| Js.FalsyBodyValues | src/controllers/subTask.controller.js:134 | Of the values a body field can hold, exactly an absent value, the number 0 and `""` are falsy for `!status` |
| Js.Present | src/controllers/task.controller.js:65 | An optional string field is truthy exactly when it is given and the same string would be truthy as a body value, that is, not `""`; the same test guards the filters at lines 71 and 81 and the checks at lines 166 and 174 |
| Js.ParseIntValue | src/controllers/subTask.controller.js:138 | parseInt of an absent value is NaN, of a number below 1e21 in magnitude is that number, and of a string is what parseInt reads from it; a falsy value reads as NaN or 0 |
| Js.CastValue | src/controllers/subTask.controller.js:143-147 | The cast before the write keeps a number, gives no number for an absent value or `""` (neither reaches the cast, since both are falsy and answered 400 at line 134), and sends any other string through Number |
| Js.Filter | src/controllers/subTask.controller.js:56 | `filter` keeps exactly the elements satisfying the predicate, in order |
| Js.FilterSnoc | src/controllers/subTask.controller.js:56 | Filtering a sequence with one more element at the end adds that element exactly when it satisfies the predicate |
| Js.FindIndex | src/crons/calling.crons.js:28-30 | `find` yields the first element satisfying the predicate, or none when no element does |
| Fields.MissingFieldAsWritten | src/controllers/task.controller.js:17 | The guard as written holds for no fields at all |
| Fields.BlankTitleSlipsThrough | src/controllers/task.controller.js:17 | The guard as written lets a whitespace-only title through; the intended guard refuses it |
| Fields.HasBlankFieldIffWhitespaceOnly | src/controllers/task.controller.js:17 | The intended guard refuses exactly the requests with a field that is empty or only white space |
| Db.Store.InsertTask | src/controllers/task.controller.js:28-34 | `Task.create` appends the task under an id no stored task has, and keeps every stored id unique |
| Db.Store.InsertSubTask | src/controllers/subTask.controller.js:29-34 | `SubTask.create` appends the subtask under an id no stored subtask has, and keeps every stored id unique |
| Db.FindOwnedTask | src/controllers/task.controller.js:186-189 | Finds the caller's task with the id, deleted or not, or reports that there is none |
| Db.FindActiveOwnedTask | src/controllers/subTask.controller.js:19-23 | Finds the caller's undeleted task with the id, or reports that there is none |
| Db.FindTask | src/controllers/subTask.controller.js:171-175 | Finds the task with the id, whoever owns it, or reports that there is none |
| Db.FindSubTask | src/controllers/subTask.controller.js:143-147 | Finds the subtask with the id, deleted or not, or reports that there is none |
| SubTaskController.StatusSet | src/controllers/subTask.controller.js:153-159 | The distinct states of the task's subtasks, deleted ones included: drawn from {0,1}, containing every such subtask's state, and empty exactly when the task has no subtask |
| SubTaskController.CompletionSets | src/models/subTask.model.js:10-14 | The distinct states of a task's subtasks form one of {}, {0}, {1} or {0,1}, and exactly two of these have one element |
| SubTaskController.AggregateStatus | src/controllers/subTask.controller.js:161-169 | Exactly {1} gives DONE. Exactly {0} gives TODO. Both states, or none, give IN_PROGRESS |
| SubTaskController.AggregateIgnoresOrderAndMultiplicity | src/controllers/subTask.controller.js:157-159 | The aggregate depends only on which states occur, not on order or repetition |
| SubTaskController.UpdatedSubTaskIsAggregated | src/controllers/subTask.controller.js:143-158 | The state just written is in the aggregation input. Completing a subtask never yields TODO; reopening one never yields DONE |
| SubTaskController.DeletedSubTasksAreAggregated | src/controllers/subTask.controller.js:153-155 | A soft-deleted subtask's state still counts in the aggregation |
| SubTaskController.ValidateSubTaskStatus | src/controllers/subTask.controller.js:134-147 | A falsy status (absent, 0 or "") is 400 "Status is required". A truthy status that parseInt does not read as 0 or 1 is 400 "Invalid status". One it reads as 0 or 1 fails with the 500 cast error exactly when the modelled cast refuses it. Otherwise the value both readings give is the value written |
| SubTaskController.CastValueAgreesWithParseInt | src/controllers/subTask.controller.js:138-147 | For any body value that both parseInt and the modelled cast read, they read the same number |
| SubTaskController.ZeroStatusExamples | src/controllers/subTask.controller.js:134-141 | The number 0 is refused as missing, "0" and 1 are accepted, and 2 is invalid |
| SubTaskController.PaddedStatusIsRead | src/controllers/subTask.controller.js:134-147 | `" 1 "` is accepted and written as 1 |
| SubTaskController.HexStatusIsRead | src/controllers/subTask.controller.js:134-147 | `"0x1"` is accepted and written as 1 |
| SubTaskController.TrailingLettersFailTheCast | src/controllers/subTask.controller.js:134-147 | `"1abc"` passes the parseInt check and then fails the cast with 500, not 400 |
| SubTaskController.SetTaskStatus | src/controllers/subTask.controller.js:171-175 | Only the status of the task with that id changes |
| SubTaskController.UpdateSubTask | src/controllers/subTask.controller.js:123-186 | A failed check or unknown subtask changes nothing. Otherwise the subtask gets the new state, its task gets the aggregate of all its subtasks' states, and the response carries both |
| SubTaskController.WriteSubTaskStatus | src/controllers/subTask.controller.js:143-175 | The subtask takes the state, then its task takes the aggregate of its subtasks' states; the response carries both |
| SubTaskController.CreateSubTask | src/controllers/subTask.controller.js:8-46 | The guard as written never answers 400. A task that is not an active task of the caller gives 404 and nothing changes. Otherwise, whatever the title and description, one incomplete subtask with a fresh id is appended and nothing else changes |
| Js.FilterCount | src/controllers/subTask.controller.js:55-58 | Splitting the fetched subtasks into undeleted and deleted loses none |
| SubTaskController.GetAllSubTask | src/controllers/subTask.controller.js:48-63 | Lists exactly the undeleted subtasks of the caller's active tasks. The total also counts their deleted ones |
| SubTaskController.GetAllSubTaskByTaskId | src/controllers/subTask.controller.js:65-94 | 404 unless the id is an active task of the caller. Otherwise lists exactly that task's undeleted subtasks, with their count |
| TaskController.DueDay | src/controllers/task.controller.js:31 | `new Date(due_date)` holds a day exactly when the string is date-shaped with a month of 1–12 and a day of 1–31, and it is the day its fields name; the same reading is stored at line 196 |
| TaskController.NotPast | src/controllers/task.controller.js:24 | isNotPastDate on a request string holds exactly for a readable date of today or later; the same test is made at line 182 |
| TaskController.ValidDateHasDueDay | src/controllers/task.controller.js:182-197 | A due date isValidDate accepts always denotes a day |
| TaskController.CreateDueDateRefused | src/controllers/task.controller.js:24-26 | createTask refuses a due date exactly when it is unreadable, or past and not canonical. A valid past date is accepted |
| TaskController.NewTask | src/controllers/task.controller.js:28-34 | A created task is the caller's, TODO, undeleted, and has the tier of its due date |
| TaskController.CreatedTodayIsTierZero | src/controllers/task.controller.js:28-34 | A task created due today is TODO in tier 0 |
| TaskController.CreateTask | src/controllers/task.controller.js:14-49 | The guard as written never answers 400. A refused due date, blank or missing ones included, gives 400. Then an empty title or description gives the 500 of Mongoose's `required` validation. On any error nothing changes. Otherwise exactly one task with a fresh id is appended, a title of white space alone included |
| TaskController.MatchesQuery | src/controllers/task.controller.js:60-88 | A matched task is the caller's and undeleted. A priority filter parseInt reads nothing from, a status filter outside the schema's spellings, or an unreadable due-date filter matches no task |
| TaskController.GetAllUserTasks | src/controllers/task.controller.js:52-88 | 400 for a due-date filter that is not a valid date. Otherwise the caller's undeleted tasks equal to each given filter, and no others |
| TaskController.DeletedTaskIsNotListed | src/controllers/task.controller.js:77-79 | A soft-deleted task appears in no task list |
| TaskController.ValidateTaskUpdate | src/controllers/task.controller.js:166-184 | Needs a due date or a status. The status must upper-case to TODO or DONE. The due date must be valid and not past, even for status-only requests. Each failing check gives its own error, in that order. A valid update never sets IN_PROGRESS |
| TaskController.StatusOnlyUpdateRefused | src/controllers/task.controller.js:182-184 | A request without a due date is always refused |
| TaskController.StatusIsCaseInsensitive | src/controllers/task.controller.js:174-179 | A status and its upper-cased form are checked and applied alike |
| TaskController.InProgressRefused | src/controllers/task.controller.js:174-179 | IN_PROGRESS is refused as an invalid status |
| TaskController.ApplyTaskUpdate | src/controllers/task.controller.js:195-201 | If the new due date is not past by the clock after the lookup, the task takes it with its recomputed tier, and otherwise keeps its old due date and tier. It takes the new status if one is given. No other field changes |
| TaskController.MidnightDuringLookup | src/controllers/task.controller.js:182-201 | A request due on the day of the checks passes them, but when midnight passes during the lookup the task keeps its old due date and tier while DONE is still written |
| TaskController.CompleteSubTasks | src/controllers/task.controller.js:202-211 | Every subtask of the task, deleted or not, becomes complete. No other subtask or field changes |
| TaskController.CompletedSubTasksAggregateToDone | src/controllers/task.controller.js:200-211 | After the DONE cascade, re-aggregating the task's subtasks gives DONE again |
| TaskController.UpdateTask | src/controllers/task.controller.js:162-219 | A failed check or a task that is missing or not the caller's changes nothing. Otherwise the task is updated as ApplyTaskUpdate says for the clock reading after the lookup, and DONE, unlike TODO, also completes its subtasks |
| TaskController.SoftDeleteSubTasks | src/controllers/task.controller.js:246-253 | Every subtask of the task gets the deletion stamp. No other subtask or field changes |
| TaskController.DeleteTask | src/controllers/task.controller.js:222-264 | A task that is missing or not the caller's gives 404 and nothing changes. Otherwise the task and all its subtasks are stamped deleted and nothing else changes |
| TaskCrons.RefreshOne | src/crons/task.crons.js:6-13 | An active task gets the tier of its due date for the run's day. A deleted one is untouched. Only the tier changes |
| TaskCrons.Refreshed | src/crons/task.crons.js:6-13 | The job keeps the task collection's length and leaves each task as RefreshOne does |
| TaskCrons.RefreshedTiersAgree | src/crons/task.crons.js:6-13 | After a run, every active task's tier matches its due date. Ids and deletion stamps are kept and deleted tasks are unchanged |
| TaskCrons.RefreshIdempotent | src/crons/task.crons.js:10-13 | A second run on the same day changes nothing |
| TaskCrons.ActiveIds | src/crons/task.crons.js:10-15 | The logged ids are those of the active tasks |
| TaskCrons.ActiveIdsInFetchOrder | src/crons/task.crons.js:6-15 | The logged ids are the ids of the fetched active tasks, one per task, position by position |
| TaskCrons.UpdateTaskPriority | src/crons/task.crons.js:5-16 | The loop leaves the task collection refreshed and returns the active tasks' ids in fetch order. Subtasks and users are untouched |
| CallingCrons.Notifier.MakeOutgoingCall | src/utils/twilio.js:10-24 | Each call is recorded in order and succeeds or fails as the script says |
| CallingCrons.SelectOverdue | src/crons/calling.crons.js:7-15 | Selects exactly the undeleted, non-DONE tasks due today or earlier |
| CallingCrons.OverdueByDay | src/crons/calling.crons.js:9-11 | The query's comparison of instants is the comparison of days |
| CallingCrons.SortByPriority | src/crons/calling.crons.js:21-23 | Users come out in non-decreasing priority |
| CallingCrons.SortIsPermutation | src/crons/calling.crons.js:21-23 | The sort neither drops nor duplicates a user |
| CallingCrons.SortKeepsMembers | src/crons/calling.crons.js:21-23 | The sorted list has exactly the users it was given |
| CallingCrons.UsersIn | src/crons/calling.crons.js:17-20 | The `$in` query finds exactly the users whose id is among the owners |
| CallingCrons.UsersToCall | src/crons/calling.crons.js:17-23 | Exactly the users owning a selected task, each as often as stored, in non-decreasing priority |
| CallingCrons.FirstOwnedIndex | src/crons/calling.crons.js:28-30 | Finds the first selected task the user owns. It finds one exactly when the user owns a selected task |
| CallingCrons.ReminderFor | src/crons/calling.crons.js:28-34 | Calls the user's number with "Hello this is a reminder for your task " followed by the title of their first selected task |
| CallingCrons.ReminderPlan | src/crons/calling.crons.js:17-35 | One call per sorted user, and the i-th call goes to the i-th user's number |
| CallingCrons.NothingOverdueNoCalls | src/crons/calling.crons.js:7-26 | With no overdue task, no call is planned |
| CallingCrons.CalleesAreOverdueOwners | src/crons/calling.crons.js:17-26 | A user is called exactly when they own an overdue task, and with unique ids at most once |
| CallingCrons.FilterKeepsUnique | src/crons/calling.crons.js:17-20 | The users the query finds keep unique ids |
| CallingCrons.AllAnsweredFinishes | src/crons/calling.crons.js:26-35 | When every call goes through, the run makes the whole plan |
| CallingCrons.CallEach | src/crons/calling.crons.js:26-35 | The calls follow the plan, one at a time. The run stops right after the first failed call, so no later user is called |
| CallingCrons.CallDueDatePassedUsers | src/crons/calling.crons.js:6-36 | The job's calls are the reminder plan, dispatched one by one up to and including the first failure. The store is only read |

## Left out

- Helper.ParseDate: reads only the date-only `YYYY-MM-DD` form with a year from 0 to 9999. Other spellings that `new Date` accepts are treated as Invalid Date. Examples are `2030-1-5`, full timestamps and free-form dates. One of them passes isValidDate in V8: an expanded-year month string such as `+010000-01` renders back through `toISOString().slice(0, 10)` as the same ten characters, so updateTask accepts it as a due date, while the model refuses it. Helper.ValidDateIsCalendarDate and Helper.ValidDateLength describe the date-only form only.
- Helper.CalculateTaskPriority: the server's time zone is taken to be UTC. In another zone, `setHours` pins a date-only string to a different local day, and that is not modelled.
- Js.ToUpperCase: maps ASCII letters only. Unicode case mapping is not modelled.
- SubTaskController.ValidateSubTaskStatus: body values are absent, an integer or a string. Booleans, arrays and objects are not modelled.
- SubTaskController.ValidateSubTaskStatus: a JSON number with a fraction, such as 1.5, is not modelled. parseInt reads it as 1, so it passes the check, and it is written unchanged since `findOneAndUpdate` runs no enum validation.
- SubTaskController.ValidateSubTaskStatus: JSON numbers are modelled only below 1e21 in magnitude (`Js.PlainInt`). From 1e21 up, JavaScript writes a number out in exponential form before parseInt reads it, so `parseInt(1e21)` is 1: such a status passes the check at line 138 and is written unchanged, and the task then aggregates from a state outside {0,1}. Which digit parseInt reads depends on the number's shortest decimal form as a double (1e23 is held as 99999999999999991611392 yet written `1e+23`), which the model's integers do not carry.
- SubTaskController.CastValueAgreesWithParseInt: holds for JSON numbers below 1e21 in magnitude only; for `1e21` parseInt reads 1 while the cast keeps 1e21. Larger numbers are not modelled, for the reason given above.
- Js.ParseIntValue: reads a number as itself, which is what parseInt does below 1e21 in magnitude, the only numbers `Js.BodyValue` holds.
- Js.NumberCast: models white space around an optional sign and decimal digits, or around a `0x` literal. Fractions, exponents, `Infinity` and the `0o`/`0b` prefixes are treated as cast failures, though Number reads some of them as integers (`"1.0"`, `"1e0"`, `"0b1"`).
- Js.ParseInt: models the call without a radix argument, the only one the handlers make. NaN is `None`.
- Request fields are strings. An absent title, description or due date behaves as the empty string does: the guard lets it pass, the due-date check refuses an absent due date, and `required` refuses an absent title or description. Non-string fields are not modelled.
- `isValidObjectId` is not modelled, nor the 400 "Invalid task ID" and "Invalid sub task ID" responses that follow from it. Ids are natural numbers.
- The `task_id` field in createSubTask's guard is not modelled, since ids are numbers.
- The unreachable 500 responses when `create` returns nothing are not modelled.
- Pagination (`page`, `limit`, `aggregatePaginate`) is not modelled. Neither are the `$lookup`/`$project` shaping of getAllUserTasks or query values given more than once. The model returns the matched tasks in store order.
- deleteTask calls `Date.now()` twice; the model uses one `now` for both stamps.
- TaskController.UpdateTask: reads the clock at line 182 (`now`) and again after the lookup at line 195 (`later`). calculateTaskPriority at line 197 reads it once more, with no `await` in between; the model uses `later` for both lines 195 and 197.
- CallingCrons.SortByPriority: MongoDB does not fix the order among users of equal priority. The model keeps their natural order.
- The Twilio client is a scripted `Notifier` whose answers say which calls succeed.
- `console.log` output is not modelled; the refresh job returns the logged ids instead.
- The cron schedules are not modelled; each job is a method called with the instant it runs at.
- The un-awaited `task.save()` in the refresh job, and any concurrency between requests and jobs, are not modelled: writes are sequential.
- Other handlers are not part of this model: getSubTask, deleteSubTask, the user controller with its JWT and cookie handling, routing, the database connection and response shaping.

## Findings

| source | as written | input that shows it | evidently intended | confidence | as-written member | corrected member |
|---|---|---|---|---|---|---|
| src/controllers/task.controller.js:17 | `field?.trim === ''` compares the `trim` method itself with `''`. That is never true, so no field is ever refused as blank; the same line is at src/controllers/subTask.controller.js:11 | a create request with title `"   "`, description `"buy milk"` and due date `"2030-01-01"` is stored; with title `""` it is answered with 500 by Mongoose's validation instead of 400 | `field?.trim() === ''`: refuse a field that is empty or only white space | high, not executed | Fields.BlankTitleSlipsThrough | Fields.HasBlankFieldIffWhitespaceOnly |
