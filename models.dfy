/** The records of src/models: Task, SubTask and User, with the enumerations their
    schemas declare. */
module Models {
  import opened Api
  import opened Helper

  /** A document id. */
  type Id = nat

  /** The urgency tier of a task (schema enum 0, 1, 2, 3). */
  type Tier = x: int | 0 <= x <= 3

  /** The importance of a user (schema enum 0, 1, 2); lower is called first. */
  type UserPriority = x: int | 0 <= x <= 2

  /** The completion state of a subtask (schema enum 0 = incomplete, 1 = complete). */
  type Completion = x: int | 0 <= x <= 1

  datatype TaskStatus = Todo | InProgress | Done {
    /** The string the schema stores. */
    function Name(): string {
      match this
      case Todo => "TODO"
      case InProgress => "IN_PROGRESS"
      case Done => "DONE"
    }
  }

  /** A task; `deletedAt` is the soft-delete stamp, None while the task is active. */
  datatype Task = Task(
    id: Id,
    title: string,
    description: string,
    dueDay: Day,
    priority: Tier,
    status: TaskStatus,
    owner: Id,
    deletedAt: Option<int>)

  /** A subtask. The schema declares no title or description, so none is stored. */
  datatype SubTask = SubTask(id: Id, taskId: Id, status: Completion, deletedAt: Option<int>)

  /** A user, as far as the reminder job sees one. */
  datatype User = User(id: Id, phoneNumber: string, priority: UserPriority)

  predicate UniqueTaskIds(ts: seq<Task>) {
    forall i, j :: 0 <= i < j < |ts| ==> ts[i].id != ts[j].id
  }

  predicate UniqueSubTaskIds(ss: seq<SubTask>) {
    forall i, j :: 0 <= i < j < |ss| ==> ss[i].id != ss[j].id
  }

  predicate UniqueUserIds(us: seq<User>) {
    forall i, j :: 0 <= i < j < |us| ==> us[i].id != us[j].id
  }
}
