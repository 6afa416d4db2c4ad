/** The three collections the handlers and jobs share, and the lookups they make on
    them. Writes are sequential: the store is a single object whose methods run one
    after another. */
module Db {
  import opened Api
  import opened Js
  import opened Models

  class Store {
    /** The task collection, in natural (insertion) order. */
    var tasks: seq<Task>
    /** The subtask collection, in natural order. */
    var subTasks: seq<SubTask>
    /** The user collection. */
    var users: seq<User>
    /** Every id handed out so far is below this one. */
    var nextId: Id

    ghost predicate Valid()
      reads this
    {
      && (forall i :: 0 <= i < |tasks| ==> tasks[i].id < nextId)
      && (forall i :: 0 <= i < |subTasks| ==> subTasks[i].id < nextId)
      && UniqueTaskIds(tasks)
      && UniqueSubTaskIds(subTasks)
      && UniqueUserIds(users)
    }

    constructor (users: seq<User>)
      requires UniqueUserIds(users)
      ensures Valid()
      ensures tasks == [] && subTasks == [] && this.users == users
    {
      tasks := [];
      subTasks := [];
      this.users := users;
      nextId := 0;
    }

    /** `Task.create`: a task carrying the next id is appended and that id is used up. */
    method InsertTask(t: Task)
      requires Valid() && t.id == nextId
      modifies this
      ensures Valid()
      ensures tasks == old(tasks) + [t] && nextId == old(nextId) + 1
      ensures subTasks == old(subTasks) && users == old(users)
      ensures forall i :: 0 <= i < |old(tasks)| ==> old(tasks)[i].id != t.id
    {
      tasks := tasks + [t];
      nextId := nextId + 1;
    }

    /** `SubTask.create`: a subtask carrying the next id is appended and that id is used up. */
    method InsertSubTask(s: SubTask)
      requires Valid() && s.id == nextId
      modifies this
      ensures Valid()
      ensures subTasks == old(subTasks) + [s] && nextId == old(nextId) + 1
      ensures tasks == old(tasks) && users == old(users)
      ensures forall i :: 0 <= i < |old(subTasks)| ==> old(subTasks)[i].id != s.id
    {
      subTasks := subTasks + [s];
      nextId := nextId + 1;
    }

    /** An update of tasks in place: every task keeps its position and its id. */
    method WriteTasks(ts: seq<Task>)
      requires Valid() && |ts| == |tasks|
      requires forall i :: 0 <= i < |ts| ==> ts[i].id == tasks[i].id
      modifies this
      ensures Valid()
      ensures tasks == ts && subTasks == old(subTasks) && users == old(users) && nextId == old(nextId)
    {
      tasks := ts;
    }

    /** An update of subtasks in place: every subtask keeps its position and its id. */
    method WriteSubTasks(ss: seq<SubTask>)
      requires Valid() && |ss| == |subTasks|
      requires forall i :: 0 <= i < |ss| ==> ss[i].id == subTasks[i].id
      modifies this
      ensures Valid()
      ensures subTasks == ss && tasks == old(tasks) && users == old(users) && nextId == old(nextId)
    {
      subTasks := ss;
    }
  }

  /** `Task.findOne({_id: id, user: caller})`: soft-deleted tasks are found too. */
  function FindOwnedTask(tasks: seq<Task>, id: Id, caller: Id): (k: Option<nat>)
    ensures k.Some? ==> k.value < |tasks| && tasks[k.value].id == id && tasks[k.value].owner == caller
    ensures k.None? ==> forall i :: 0 <= i < |tasks| ==> tasks[i].id != id || tasks[i].owner != caller
  {
    FindIndex(tasks, (t: Task) => t.id == id && t.owner == caller)
  }

  /** `Task.findOne({_id: id, deletedAt: null, user: caller})` */
  function FindActiveOwnedTask(tasks: seq<Task>, id: Id, caller: Id): (k: Option<nat>)
    ensures k.Some? ==> k.value < |tasks| && tasks[k.value].id == id && tasks[k.value].owner == caller
                        && tasks[k.value].deletedAt.None?
    ensures k.None? ==> forall i :: 0 <= i < |tasks| ==>
                          tasks[i].id != id || tasks[i].owner != caller || tasks[i].deletedAt.Some?
  {
    FindIndex(tasks, (t: Task) => t.id == id && t.owner == caller && t.deletedAt.None?)
  }

  /** `Task.findOne({_id: id})`, whoever owns the task and whether or not it is deleted. */
  function FindTask(tasks: seq<Task>, id: Id): (k: Option<nat>)
    ensures k.Some? ==> k.value < |tasks| && tasks[k.value].id == id
    ensures k.None? ==> forall i :: 0 <= i < |tasks| ==> tasks[i].id != id
  {
    FindIndex(tasks, (t: Task) => t.id == id)
  }

  /** `SubTask.findOne({_id: id})`, whether or not the subtask is deleted. */
  function FindSubTask(subTasks: seq<SubTask>, id: Id): (k: Option<nat>)
    ensures k.Some? ==> k.value < |subTasks| && subTasks[k.value].id == id
    ensures k.None? ==> forall i :: 0 <= i < |subTasks| ==> subTasks[i].id != id
  {
    FindIndex(subTasks, (s: SubTask) => s.id == id)
  }
}
