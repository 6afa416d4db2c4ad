/** src/controllers/subTask.controller.js: creating a subtask under an active task of
    the caller, updating a subtask's completion state and re-deriving its task's status
    from the distinct states of all the task's subtasks, and the two list handlers. */
module SubTaskController {
  import opened Api
  import opened Js
  import opened Models
  import opened Db
  import opened Fields

  // ---------------------------------------------------------------- status aggregation

  /** The distinct completion states of every subtask of `taskId`: the
      `new Set(...)` over `SubTask.find({task_id})`, soft-deleted subtasks included. */
  function StatusSet(subTasks: seq<SubTask>, taskId: Id): (r: set<Completion>)
    ensures r <= {0, 1}
    ensures forall i :: 0 <= i < |subTasks| && subTasks[i].taskId == taskId ==> subTasks[i].status in r
    ensures r == {} <==> forall i :: 0 <= i < |subTasks| ==> subTasks[i].taskId != taskId
  {
    set s | s in subTasks && s.taskId == taskId :: s.status
  }

  /** The four sets a set of completion states can be. */
  lemma CompletionSets(statuses: set<Completion>)
    ensures statuses == {} || statuses == {0} || statuses == {1} || statuses == {0, 1}
    ensures |statuses| == 1 <==> statuses == {0} || statuses == {1}
  {
  }

  /** The parent status a set of distinct completion states gives: one state alone
      gives DONE when it is 1 and TODO when it is 0, anything else IN_PROGRESS. */
  function AggregateStatus(statuses: set<Completion>): (r: TaskStatus)
    ensures r == Done <==> statuses == {1}
    ensures r == Todo <==> statuses == {0}
    ensures r == InProgress <==> statuses == {} || statuses == {0, 1}
  {
    CompletionSets(statuses);
    if |statuses| == 1 then
      (if 1 in statuses then Done else Todo)
    else InProgress
  }

  /** The aggregate depends only on which states occur among the task's subtasks:
      neither their order nor how often a state occurs matters. */
  lemma AggregateIgnoresOrderAndMultiplicity(a: seq<SubTask>, b: seq<SubTask>, taskId: Id)
    requires forall s :: s in a <==> s in b
    ensures StatusSet(a, taskId) == StatusSet(b, taskId)
    ensures AggregateStatus(StatusSet(a, taskId)) == AggregateStatus(StatusSet(b, taskId))
  {
  }

  /** The state just written is itself part of the aggregation input: completing a
      subtask never leaves its task TODO, and reopening one never leaves it DONE. */
  lemma UpdatedSubTaskIsAggregated(subTasks: seq<SubTask>, k: nat, v: Completion)
    requires k < |subTasks|
    ensures var after := subTasks[k := subTasks[k].(status := v)];
            && v in StatusSet(after, subTasks[k].taskId)
            && (v == 1 ==> AggregateStatus(StatusSet(after, subTasks[k].taskId)) != Todo)
            && (v == 0 ==> AggregateStatus(StatusSet(after, subTasks[k].taskId)) != Done)
  {
    var after := subTasks[k := subTasks[k].(status := v)];
    assert after[k] in after;
  }

  /** A soft-deleted subtask still takes part in the aggregation. */
  lemma DeletedSubTasksAreAggregated(subTasks: seq<SubTask>, s: SubTask)
    requires s in subTasks && s.deletedAt.Some?
    ensures s.status in StatusSet(subTasks, s.taskId)
  {
  }

  // ---------------------------------------------------------------- updateSubTask

  /** The checks updateSubTask makes on the body's `status`, and the value it writes:
      a falsy status (absent, the number 0 or "") is missing, anything parseInt does
      not read as 0 or 1 is invalid, and a value the cast to Number refuses fails the
      update itself. */
  function ValidateSubTaskStatus(status: BodyValue): (r: Result<Completion>)
    ensures !Truthy(status) ==> r == Err(StatusRequired)
    ensures Truthy(status) && ParseIntValue(status) != Some(0) && ParseIntValue(status) != Some(1) ==>
              r == Err(InvalidStatus)
    ensures r == Err(NumberCastFailed) <==>
              && Truthy(status)
              && (ParseIntValue(status) == Some(0) || ParseIntValue(status) == Some(1))
              && CastValue(status).None?
    ensures r.Ok? <==>
              && Truthy(status)
              && (ParseIntValue(status) == Some(0) || ParseIntValue(status) == Some(1))
              && CastValue(status).Some?
    ensures r.Ok? ==> CastValue(status) == Some(r.value as int) && ParseIntValue(status) == Some(r.value as int)
  {
    CastValueAgreesWithParseInt(status);
    if !Truthy(status) then Err(StatusRequired)
    else if ParseIntValue(status) != Some(0) && ParseIntValue(status) != Some(1) then Err(InvalidStatus)
    else match CastValue(status)
      case None => Err(NumberCastFailed)
      case Some(v) => Ok(v)
  }

  /** Where parseInt reads a number, the cast to Number that follows reads the same one
      or fails. */
  lemma CastValueAgreesWithParseInt(v: BodyValue)
    ensures CastValue(v).Some? && ParseIntValue(v).Some? ==> ParseIntValue(v) == CastValue(v)
  {
    if v.Text? {
      CastAgreesWithParseInt(v.s);
    }
  }

  /** The number 0 is refused as missing, so a subtask can be reopened only with a
      string such as "0". */
  lemma ZeroStatusExamples()
    ensures ValidateSubTaskStatus(Number(0)) == Err(StatusRequired)
    ensures ValidateSubTaskStatus(Text("0")) == Ok(0)
    ensures ValidateSubTaskStatus(Number(1)) == Ok(1)
    ensures ValidateSubTaskStatus(Number(2)) == Err(InvalidStatus)
  {
    ParseIntReadsLeadingDigits("0", "");
    assert "0" + "" == "0";
    assert TrimStart("0") == "0";
  }

  /** White space around the digits is skipped: `" 1 "` completes a subtask. */
  lemma PaddedStatusIsRead()
    ensures ValidateSubTaskStatus(Text(" 1 ")) == Ok(1)
  {
    PaddedNumeralIsRead();
  }

  /** A hex literal is read in base 16: `"0x1"` completes a subtask. */
  lemma HexStatusIsRead()
    ensures ValidateSubTaskStatus(Text("0x1")) == Ok(1)
  {
    HexNumeralIsRead();
  }

  /** Trailing letters pass the parseInt check and then fail the cast, so the update
      answers 500 rather than 400. */
  lemma TrailingLettersFailTheCast()
    ensures ValidateSubTaskStatus(Text("1abc")) == Err(NumberCastFailed)
  {
    TrailingLettersSplitTheReadings();
  }

  /** `Task.findOneAndUpdate({_id: taskId}, {status})`: the first task with that id,
      whoever owns it and whether or not it is deleted, takes the status. */
  function SetTaskStatus(tasks: seq<Task>, taskId: Id, status: TaskStatus): (r: seq<Task>)
    ensures |r| == |tasks|
    ensures forall i :: 0 <= i < |tasks| ==> r[i].(status := tasks[i].status) == tasks[i]
    ensures forall i :: 0 <= i < |tasks| && tasks[i].id != taskId ==> r[i] == tasks[i]
    ensures FindTask(tasks, taskId).Some? ==> r[FindTask(tasks, taskId).value].status == status
  {
    match FindTask(tasks, taskId)
    case None => tasks
    case Some(k) => tasks[k := tasks[k].(status := status)]
  }

  /** The subtask as updated, and its task after re-aggregation (None when no task
      has the subtask's task id). */
  datatype SubTaskUpdate = SubTaskUpdate(subTask: SubTask, task: Option<Task>)

  /** updateSubTask: any subtask with the id, whoever owns its task and whether or not
      it is deleted, takes the new state; then the task's status becomes the
      aggregate of all its subtasks' states. A failed check changes nothing. */
  method UpdateSubTask(db: Store, subTaskId: Id, status: BodyValue) returns (r: Result<SubTaskUpdate>)
    requires db.Valid()
    modifies db
    ensures db.Valid() && db.users == old(db.users) && db.nextId == old(db.nextId)
    ensures match ValidateSubTaskStatus(status)
      case Err(e) => r == Err(e) && db.tasks == old(db.tasks) && db.subTasks == old(db.subTasks)
      case Ok(v) =>
        match FindSubTask(old(db.subTasks), subTaskId)
        case None => r == Err(SubTaskNotFound) && db.tasks == old(db.tasks) && db.subTasks == old(db.subTasks)
        case Some(k) =>
          var updated := old(db.subTasks)[k].(status := v);
          && db.subTasks == old(db.subTasks)[k := updated]
          && db.tasks == SetTaskStatus(old(db.tasks), updated.taskId,
                                       AggregateStatus(StatusSet(db.subTasks, updated.taskId)))
          && r.Ok? && r.value.subTask == updated
          && r.value.task == (match FindTask(db.tasks, updated.taskId)
                              case None => None
                              case Some(j) => Some(db.tasks[j]))
  {
    var checked := ValidateSubTaskStatus(status);
    if checked.Err? {
      return Err(checked.error);
    }
    var found := FindSubTask(db.subTasks, subTaskId);
    if found.None? {
      return Err(SubTaskNotFound);
    }
    var update := WriteSubTaskStatus(db, found.value, checked.value);
    r := Ok(update);
  }

  /** The writes of updateSubTask once its checks have passed: the k-th subtask takes
      the state, then its task takes the aggregate of its subtasks' states. */
  method WriteSubTaskStatus(db: Store, k: nat, v: Completion) returns (u: SubTaskUpdate)
    requires db.Valid() && k < |db.subTasks|
    modifies db
    ensures db.Valid() && db.users == old(db.users) && db.nextId == old(db.nextId)
    ensures var updated := old(db.subTasks)[k].(status := v);
            && db.subTasks == old(db.subTasks)[k := updated]
            && db.tasks == SetTaskStatus(old(db.tasks), updated.taskId,
                                         AggregateStatus(StatusSet(db.subTasks, updated.taskId)))
            && u.subTask == updated
            && u.task == (match FindTask(db.tasks, updated.taskId)
                          case None => None
                          case Some(j) => Some(db.tasks[j]))
  {
    var subTask := db.subTasks[k].(status := v);
    db.WriteSubTasks(db.subTasks[k := subTask]);
    var uniqueTaskStatuses := StatusSet(db.subTasks, subTask.taskId);
    var taskStatus := AggregateStatus(uniqueTaskStatuses);
    db.WriteTasks(SetTaskStatus(db.tasks, subTask.taskId, taskStatus));
    var task := match FindTask(db.tasks, subTask.taskId)
      case None => None
      case Some(j) => Some(db.tasks[j]);
    u := SubTaskUpdate(subTask, task);
  }

  // ---------------------------------------------------------------- createSubTask

  /** createSubTask as written: the required-field guard never fires; a task id that is
      not an active task of the caller gives 404; otherwise an incomplete subtask is
      added, whatever the title and description (the subtask schema has neither, so
      neither is stored). The parent's status is not re-derived. */
  method CreateSubTask(db: Store, caller: Id, taskId: Id, title: string, description: string)
    returns (r: Result<SubTask>)
    requires db.Valid()
    modifies db
    ensures db.Valid() && db.tasks == old(db.tasks) && db.users == old(db.users)
    ensures MissingFieldAsWritten([title, description]) ==> r == Err(SubTaskFieldsRequired)
    ensures r.Err? ==> r == Err(TaskNotFound) && db.subTasks == old(db.subTasks) && db.nextId == old(db.nextId)
    ensures r.Ok? ==> db.nextId == old(db.nextId) + 1
    ensures r.Ok? <==> FindActiveOwnedTask(old(db.tasks), taskId, caller).Some?
    ensures r.Ok? ==>
              && r.value == SubTask(old(db.nextId), taskId, 0, None)
              && db.subTasks == old(db.subTasks) + [r.value]
              && r.value.id !in set s | s in old(db.subTasks) :: s.id
  {
    if MissingFieldAsWritten([title, description]) {
      return Err(SubTaskFieldsRequired);
    }
    var task := FindActiveOwnedTask(db.tasks, taskId, caller);
    if task.None? {
      return Err(TaskNotFound);
    }
    var subTask := SubTask(db.nextId, taskId, 0, None);
    db.InsertSubTask(subTask);
    r := Ok(subTask);
  }

  // ---------------------------------------------------------------- list handlers

  /** The `data` a list handler answers with. */
  datatype SubTaskList = SubTaskList(subTasks: seq<SubTask>, totalSubTasks: nat)

  /** The ids of the caller's active tasks. */
  function ActiveTaskIds(tasks: seq<Task>, caller: Id): set<Id> {
    set t | t in tasks && t.owner == caller && t.deletedAt.None? :: t.id
  }

  function SubTasksOf(subTasks: seq<SubTask>, taskIds: set<Id>): seq<SubTask> {
    Filter(subTasks, (s: SubTask) => s.taskId in taskIds)
  }

  function NotDeleted(subTasks: seq<SubTask>): seq<SubTask> {
    Filter(subTasks, (s: SubTask) => s.deletedAt.None?)
  }

  function Deleted(subTasks: seq<SubTask>): seq<SubTask> {
    Filter(subTasks, (s: SubTask) => s.deletedAt.Some?)
  }

  /** getAllSubTask: the undeleted subtasks of the caller's active tasks; the total
      counts the deleted ones as well. */
  function GetAllSubTask(tasks: seq<Task>, subTasks: seq<SubTask>, caller: Id): (r: SubTaskList)
    ensures forall s :: s in r.subTasks <==>
              && s in subTasks && s.deletedAt.None?
              && exists t :: t in tasks && t.id == s.taskId && t.owner == caller && t.deletedAt.None?
    ensures r.totalSubTasks == |r.subTasks| + |Deleted(SubTasksOf(subTasks, ActiveTaskIds(tasks, caller)))|
  {
    var all := SubTasksOf(subTasks, ActiveTaskIds(tasks, caller));
    FilterCount(all, (s: SubTask) => s.deletedAt.None?, (s: SubTask) => s.deletedAt.Some?);
    SubTaskList(NotDeleted(all), |all|)
  }

  /** getAllSubTaskByTaskId: 404 unless the id names an active task of the caller;
      otherwise that task's undeleted subtasks, counted. */
  function GetAllSubTaskByTaskId(tasks: seq<Task>, subTasks: seq<SubTask>, caller: Id, taskId: Id)
    : (r: Result<SubTaskList>)
    ensures r.Err? <==> FindActiveOwnedTask(tasks, taskId, caller).None?
    ensures r.Err? ==> r.error == TaskNotFound
    ensures r.Ok? ==> r.value.totalSubTasks == |r.value.subTasks|
    ensures r.Ok? ==> forall s :: s in r.value.subTasks <==> s in subTasks && s.taskId == taskId && s.deletedAt.None?
  {
    if FindActiveOwnedTask(tasks, taskId, caller).None? then Err(TaskNotFound)
    else
      var found := Filter(subTasks, (s: SubTask) => s.taskId == taskId && s.deletedAt.None?);
      Ok(SubTaskList(found, |found|))
  }
}
