/** src/controllers/task.controller.js: creating a task with its urgency tier, the
    match of the task list, updating a task's due date and status (with the cascade of
    DONE to its subtasks), and soft-deleting a task with its subtasks. */
module TaskController {
  import opened Api
  import opened Js
  import opened Helper
  import opened Models
  import opened Db
  import opened Fields
  import SubTaskController

  // ---------------------------------------------------------------- due dates in requests

  /** The day `new Date(s)` holds; None for an Invalid Date. A date-shaped string with
      a month of 1-12 and a day of 1-31 is read, and it holds the day its fields name
      when counted as V8 counts them (so February 30 is March 1 or 2). */
  function DueDay(s: string): (r: Option<Day>)
    ensures r.Some? <==> HasDateShape(s) && 1 <= DateFields(s).month <= 12 && 1 <= DateFields(s).day <= 31
    ensures r.Some? ==> r.value == DayNumber(DateFields(s))
  {
    match ParseDate(s)
    case None => None
    case Some(d) => Some(DayNumber(d))
  }

  /** isNotPastDate on a request string: true exactly for a readable date that is
      today or later; an Invalid Date is never "not past". */
  predicate NotPast(s: string, today: Day): (b: bool)
    ensures b <==> DueDay(s).Some? && DueDay(s).value >= today
  {
    DueDay(s).Some? && IsNotPastDate(DueDay(s).value, today)
  }

  /** A string isValidDate accepts is always readable as a date. */
  lemma ValidDateHasDueDay(s: string)
    ensures IsValidDate(s) ==> DueDay(s).Some?
  {
  }

  // ---------------------------------------------------------------- createTask

  /** The due-date check of createTask, which joins its two tests with `&&`: a due date
      is refused only when it is unreadable, or past and not in canonical form, so a
      valid date in the past is accepted. */
  predicate CreateDueDateRefused(s: string, today: Day): (b: bool)
    ensures b <==> DueDay(s).None? || (DueDay(s).value < today && !IsValidDate(s))
    ensures IsValidDate(s) ==> !b
  {
    !NotPast(s, today) && !IsValidDate(s)
  }

  /** The task createTask stores. */
  function NewTask(id: Id, caller: Id, title: string, description: string, dueDay: Day, today: Day): (t: Task)
    ensures t.priority == CalculateTaskPriority(dueDay, today) && t.status == Todo
    ensures t.owner == caller && t.deletedAt.None? && t.dueDay == dueDay
  {
    Task(id, title, description, dueDay, CalculateTaskPriority(dueDay, today), Todo, caller, None)
  }

  /** A task created due today is in tier 0 and TODO. */
  lemma CreatedTodayIsTierZero(id: Id, caller: Id, title: string, description: string, today: Day)
    ensures NewTask(id, caller, title, description, today, today).priority == 0
    ensures NewTask(id, caller, title, description, today, today).status == Todo
  {
  }

  /** createTask as written: the required-field guard never fires; a due date that is
      unreadable, or past and not in canonical form, gives 400; then the schema's
      `required` validators refuse an empty title or description, which the error
      handler answers with 500, while a title of white space alone is stored. The new
      task belongs to the caller, is TODO and has the tier of its due date. */
  method CreateTask(db: Store, caller: Id, title: string, description: string, dueDate: string, now: int)
    returns (r: Result<Task>)
    requires db.Valid()
    modifies db
    ensures db.Valid() && db.subTasks == old(db.subTasks) && db.users == old(db.users)
    ensures MissingFieldAsWritten([title, description, dueDate]) ==> r == Err(FieldsRequired)
    ensures r.Err? <==> CreateDueDateRefused(dueDate, DayOf(now)) || title == "" || description == ""
    ensures r.Err? ==> db.tasks == old(db.tasks) && db.nextId == old(db.nextId)
    ensures r.Ok? ==> db.nextId == old(db.nextId) + 1
    ensures r.Err? ==> r.error == if CreateDueDateRefused(dueDate, DayOf(now)) then PastOrInvalidDueDate
                                  else RequiredFieldMissing
    ensures r.Ok? ==>
              && DueDay(dueDate) == Some(r.value.dueDay)
              && r.value == NewTask(old(db.nextId), caller, title, description, r.value.dueDay, DayOf(now))
              && (forall i :: 0 <= i < |old(db.tasks)| ==> old(db.tasks)[i].id != r.value.id)
              && db.tasks == old(db.tasks) + [r.value]
  {
    if MissingFieldAsWritten([title, description, dueDate]) {
      return Err(FieldsRequired);
    }
    var today := DayOf(now);
    if CreateDueDateRefused(dueDate, today) {
      return Err(PastOrInvalidDueDate);
    }
    if title == "" || description == "" {
      return Err(RequiredFieldMissing);
    }
    var task := NewTask(db.nextId, caller, title, description, DueDay(dueDate).value, today);
    db.InsertTask(task);
    r := Ok(task);
  }

  // ---------------------------------------------------------------- getAllUserTasks

  /** The query parameters getAllUserTasks filters on (page and limit only paginate). */
  datatype TaskQuery = TaskQuery(status: Option<string>, priority: Option<string>, dueDate: Option<string>)

  /** The match stages of getAllUserTasks: the caller's task, not deleted, equal to each
      filter that is given (status as stored, priority as parseInt reads it, due date
      as `new Date` reads it). */
  predicate MatchesQuery(t: Task, caller: Id, q: TaskQuery): (b: bool)
    ensures Present(q.priority) && ParseInt(q.priority.value).None? ==> !b
    ensures Present(q.status) && q.status.value != "TODO" && q.status.value != "IN_PROGRESS" && q.status.value != "DONE" ==> !b
    ensures Present(q.dueDate) && DueDay(q.dueDate.value).None? ==> !b
    ensures b ==> t.owner == caller && t.deletedAt.None?
  {
    && t.owner == caller
    && (Present(q.status) ==> t.status.Name() == q.status.value)
    && (Present(q.priority) ==> ParseInt(q.priority.value) == Some(t.priority as int))
    && t.deletedAt.None?
    && (Present(q.dueDate) ==> DueDay(q.dueDate.value) == Some(t.dueDay))
  }

  /** getAllUserTasks before pagination: 400 for a due-date filter that is not a valid
      date, otherwise exactly the tasks the match stages let through, in store order. */
  function GetAllUserTasks(tasks: seq<Task>, caller: Id, q: TaskQuery): (r: Result<seq<Task>>)
    ensures r.Err? <==> Present(q.dueDate) && !IsValidDate(q.dueDate.value)
    ensures r.Err? ==> r.error == InvalidDueDate
    ensures r.Ok? ==> forall t :: t in r.value <==> t in tasks && MatchesQuery(t, caller, q)
    ensures r.Ok? ==> forall t :: t in r.value ==> t.owner == caller && t.deletedAt.None?
  {
    if Present(q.dueDate) && !IsValidDate(q.dueDate.value) then Err(InvalidDueDate)
    else Ok(Filter(tasks, (t: Task) => MatchesQuery(t, caller, q)))
  }

  // ---------------------------------------------------------------- updateTask

  /** What a valid update writes: the new due date, and the new status if one is given. */
  datatype TaskUpdate = TaskUpdate(dueDay: Day, status: Option<TaskStatus>)

  /** The checks of updateTask, in order: a due date or a status is required; a
      status must upper-case to TODO or DONE; and the due date, even when only the
      status is to change, must be a valid date that is not past. */
  function ValidateTaskUpdate(dueDate: Option<string>, status: Option<string>, today: Day)
    : (r: Result<TaskUpdate>)
    ensures !Present(dueDate) && !Present(status) ==> r == Err(DueDateOrStatusRequired)
    ensures Present(status) && ToUpperCase(status.value) != "TODO" && ToUpperCase(status.value) != "DONE" ==>
              r == Err(InvalidStatus)
    ensures && (Present(dueDate) || Present(status))
            && (Present(status) ==> ToUpperCase(status.value) == "TODO" || ToUpperCase(status.value) == "DONE")
            && !(dueDate.Some? && NotPast(dueDate.value, today) && IsValidDate(dueDate.value)) ==>
              r == Err(PastOrInvalidDueDate)
    ensures r.Ok? <==>
              && (Present(status) ==> ToUpperCase(status.value) == "TODO" || ToUpperCase(status.value) == "DONE")
              && dueDate.Some? && NotPast(dueDate.value, today) && IsValidDate(dueDate.value)
    ensures r.Ok? ==> DueDay(dueDate.value) == Some(r.value.dueDay) && r.value.dueDay >= today
    ensures r.Ok? ==> (r.value.status.Some? <==> Present(status))
    ensures r.Ok? ==> r.value.status != Some(InProgress)
    ensures r.Ok? && Present(status) ==>
              (r.value.status == Some(Done) <==> ToUpperCase(status.value) == "DONE")
  {
    if !Present(dueDate) && !Present(status) then Err(DueDateOrStatusRequired)
    else if Present(status) && ToUpperCase(status.value) != "TODO" && ToUpperCase(status.value) != "DONE" then
      Err(InvalidStatus)
    else if !(dueDate.Some? && NotPast(dueDate.value, today)) || !(dueDate.Some? && IsValidDate(dueDate.value)) then
      Err(PastOrInvalidDueDate)
    else
      var newStatus := if !Present(status) then None
                       else if ToUpperCase(status.value) == "DONE" then Some(Done)
                       else Some(Todo);
      Ok(TaskUpdate(DueDay(dueDate.value).value, newStatus))
  }

  /** A request that changes only the status is refused for want of a due date. */
  lemma StatusOnlyUpdateRefused(status: Option<string>, today: Day)
    ensures ValidateTaskUpdate(None, status, today).Err?
  {
  }

  /** IN_PROGRESS cannot be set by hand. */
  lemma InProgressRefused(dueDate: Option<string>, today: Day)
    ensures ValidateTaskUpdate(dueDate, Some("IN_PROGRESS"), today) == Err(InvalidStatus)
  {
  }

  /** The status check ignores case: "done" and "DONE" are the same request. */
  lemma StatusIsCaseInsensitive(dueDate: Option<string>, status: string, today: Day)
    ensures ValidateTaskUpdate(dueDate, Some(status), today) == ValidateTaskUpdate(dueDate, Some(ToUpperCase(status)), today)
  {
  }

  /** The task as updateTask leaves it, `today` being the day the clock shows once the
      task has been fetched: the new due date with its recomputed tier when that date
      is still not past, the new status if one was given, everything else as it was. */
  function ApplyTaskUpdate(t: Task, u: TaskUpdate, today: Day): (r: Task)
    ensures u.dueDay >= today ==> r.dueDay == u.dueDay && r.priority == CalculateTaskPriority(u.dueDay, today)
    ensures u.dueDay < today ==> r.dueDay == t.dueDay && r.priority == t.priority
    ensures r.status == if u.status.Some? then u.status.value else t.status
    ensures r.(dueDay := t.dueDay, priority := t.priority, status := t.status) == t
  {
    var r := if IsNotPastDate(u.dueDay, today) then
               t.(dueDay := u.dueDay, priority := CalculateTaskPriority(u.dueDay, today))
             else t;
    if u.status.Some? then r.(status := u.status.value) else r
  }

  /** When the clock passes midnight between the checks and the write, an update due
      on the day of the checks passes them, yet the task keeps its old due date and
      tier while the new status is still written. */
  lemma MidnightDuringLookup(t: Task, dueDate: string, now: int)
    requires IsValidDate(dueDate) && DueDay(dueDate) == Some(DayOf(now))
    ensures var checked := ValidateTaskUpdate(Some(dueDate), Some("DONE"), DayOf(now));
            var after := ApplyTaskUpdate(t, checked.value, DayOf((DayOf(now) + 1) * MsPerDay));
            && checked.Ok?
            && after.dueDay == t.dueDay && after.priority == t.priority && after.status == Done
  {
    assert ToUpperCase("DONE") == "DONE";
    assert DayOf((DayOf(now) + 1) * MsPerDay) == DayOf(now) + 1;
  }

  /** `SubTask.updateMany({task_id}, {status: 1})`: every subtask of the task, deleted
      or not, is completed; nothing else changes. */
  function CompleteSubTasks(subTasks: seq<SubTask>, taskId: Id): (r: seq<SubTask>)
    ensures |r| == |subTasks|
    ensures forall i :: 0 <= i < |subTasks| ==> r[i].(status := subTasks[i].status) == subTasks[i]
    ensures forall i :: 0 <= i < |subTasks| && subTasks[i].taskId == taskId ==> r[i].status == 1
    ensures forall i :: 0 <= i < |subTasks| && subTasks[i].taskId != taskId ==> r[i] == subTasks[i]
  {
    seq(|subTasks|, i requires 0 <= i < |subTasks| =>
      if subTasks[i].taskId == taskId then subTasks[i].(status := 1) else subTasks[i])
  }

  /** The two directions agree: after the DONE cascade, aggregating the task's
      subtasks gives DONE again. */
  lemma CompletedSubTasksAggregateToDone(subTasks: seq<SubTask>, taskId: Id)
    requires exists s :: s in subTasks && s.taskId == taskId
    ensures SubTaskController.StatusSet(CompleteSubTasks(subTasks, taskId), taskId) == {1}
    ensures SubTaskController.AggregateStatus(SubTaskController.StatusSet(CompleteSubTasks(subTasks, taskId), taskId)) == Done
  {
  }

  /** updateTask: after the checks, made at `now`, the caller's task with the id
      (deleted or not) is looked up; at `later`, when the lookup has returned, it takes
      the new due date and tier if that date is still not past, and, if given, the new
      status, and DONE completes all of its subtasks. A failed check or a missing task
      changes nothing. */
  method UpdateTask(db: Store, caller: Id, taskId: Id, dueDate: Option<string>, status: Option<string>,
                    now: int, later: int)
    returns (r: Result<Task>)
    requires db.Valid()
    modifies db
    ensures db.Valid() && db.users == old(db.users) && db.nextId == old(db.nextId)
    ensures match ValidateTaskUpdate(dueDate, status, DayOf(now))
      case Err(e) => r == Err(e) && db.tasks == old(db.tasks) && db.subTasks == old(db.subTasks)
      case Ok(u) =>
        match FindOwnedTask(old(db.tasks), taskId, caller)
        case None => r == Err(TaskNotFound) && db.tasks == old(db.tasks) && db.subTasks == old(db.subTasks)
        case Some(k) =>
          && r == Ok(ApplyTaskUpdate(old(db.tasks)[k], u, DayOf(later)))
          && db.tasks == old(db.tasks)[k := r.value]
          && db.subTasks == if u.status == Some(Done) then CompleteSubTasks(old(db.subTasks), taskId)
                            else old(db.subTasks)
  {
    var today := DayOf(now);
    var checked := ValidateTaskUpdate(dueDate, status, today);
    if checked.Err? {
      return Err(checked.error);
    }
    var u := checked.value;
    var found := FindOwnedTask(db.tasks, taskId, caller);
    if found.None? {
      return Err(TaskNotFound);
    }
    var k := found.value;
    var task := db.tasks[k];
    if IsNotPastDate(u.dueDay, DayOf(later)) {
      task := task.(dueDay := u.dueDay);
      task := task.(priority := CalculateTaskPriority(u.dueDay, DayOf(later)));
    }
    if u.status.Some? {
      task := task.(status := u.status.value);
      if u.status.value == Done {
        db.WriteSubTasks(CompleteSubTasks(db.subTasks, task.id));
      }
    }
    db.WriteTasks(db.tasks[k := task]);
    r := Ok(task);
  }

  // ---------------------------------------------------------------- deleteTask

  /** `SubTask.updateMany({task_id}, {deletedAt})`: every subtask of the task is
      stamped; nothing else changes. */
  function SoftDeleteSubTasks(subTasks: seq<SubTask>, taskId: Id, now: int): (r: seq<SubTask>)
    ensures |r| == |subTasks|
    ensures forall i :: 0 <= i < |subTasks| ==> r[i].(deletedAt := subTasks[i].deletedAt) == subTasks[i]
    ensures forall i :: 0 <= i < |subTasks| && subTasks[i].taskId == taskId ==> r[i].deletedAt == Some(now)
    ensures forall i :: 0 <= i < |subTasks| && subTasks[i].taskId != taskId ==> r[i] == subTasks[i]
  {
    seq(|subTasks|, i requires 0 <= i < |subTasks| =>
      if subTasks[i].taskId == taskId then subTasks[i].(deletedAt := Some(now)) else subTasks[i])
  }

  /** deleteTask: the caller's task with the id is stamped deleted, and so are all of
      its subtasks; a task that is missing or someone else's gives 404 and no change. */
  method DeleteTask(db: Store, caller: Id, taskId: Id, now: int) returns (r: Result<Task>)
    requires db.Valid()
    modifies db
    ensures db.Valid() && db.users == old(db.users) && db.nextId == old(db.nextId)
    ensures match FindOwnedTask(old(db.tasks), taskId, caller)
      case None => r == Err(TaskNotFound) && db.tasks == old(db.tasks) && db.subTasks == old(db.subTasks)
      case Some(k) =>
        && r == Ok(old(db.tasks)[k].(deletedAt := Some(now)))
        && db.tasks == old(db.tasks)[k := r.value]
        && db.subTasks == SoftDeleteSubTasks(old(db.subTasks), taskId, now)
  {
    var found := FindOwnedTask(db.tasks, taskId, caller);
    if found.None? {
      return Err(TaskNotFound);
    }
    var k := found.value;
    var task := db.tasks[k].(deletedAt := Some(now));
    db.WriteTasks(db.tasks[k := task]);
    db.WriteSubTasks(SoftDeleteSubTasks(db.subTasks, task.id, now));
    r := Ok(task);
  }

  /** A deleted task drops out of every task list. */
  lemma DeletedTaskIsNotListed(tasks: seq<Task>, k: nat, caller: Id, q: TaskQuery, now: int)
    requires k < |tasks|
    ensures var after := tasks[k := tasks[k].(deletedAt := Some(now))];
            GetAllUserTasks(after, caller, q).Ok? ==> after[k] !in GetAllUserTasks(after, caller, q).value
  {
  }
}
