/** src/crons/task.crons.js: the nightly job that recomputes the urgency tier of every
    active task from its due date. */
module TaskCrons {
  import opened Js
  import opened Helper
  import opened Models
  import opened Db

  /** One task as the job leaves it: an active task gets the tier of its due date as
      seen today; a deleted task is not loaded and so not touched. */
  function RefreshOne(t: Task, today: Day): (r: Task)
    ensures t.deletedAt.None? ==> r.priority == CalculateTaskPriority(t.dueDay, today)
    ensures t.deletedAt.Some? ==> r == t
    ensures r.(priority := t.priority) == t
  {
    if t.deletedAt.None? then t.(priority := CalculateTaskPriority(t.dueDay, today)) else t
  }

  /** The task collection after the job has run on `today`. */
  function Refreshed(tasks: seq<Task>, today: Day): (r: seq<Task>)
    ensures |r| == |tasks|
    ensures forall i :: 0 <= i < |tasks| ==> r[i] == RefreshOne(tasks[i], today)
  {
    seq(|tasks|, i requires 0 <= i < |tasks| => RefreshOne(tasks[i], today))
  }

  /** After the job every active task's tier agrees with its due date, ids, owners and
      deletion stamps are as they were, and deleted tasks are untouched. */
  lemma RefreshedTiersAgree(tasks: seq<Task>, today: Day)
    ensures forall t :: t in Refreshed(tasks, today) && t.deletedAt.None? ==>
              t.priority == CalculateTaskPriority(t.dueDay, today)
    ensures forall i :: 0 <= i < |tasks| ==>
              Refreshed(tasks, today)[i].id == tasks[i].id && Refreshed(tasks, today)[i].deletedAt == tasks[i].deletedAt
    ensures forall t :: t in tasks && t.deletedAt.Some? ==> t in Refreshed(tasks, today)
  {
  }

  /** Running the job twice on the same day changes nothing the first run did not. */
  lemma RefreshIdempotent(tasks: seq<Task>, today: Day)
    ensures Refreshed(Refreshed(tasks, today), today) == Refreshed(tasks, today)
  {
  }

  /** The tasks `Task.find({deletedAt: null})` fetches. */
  predicate Active(t: Task) {
    t.deletedAt.None?
  }

  /** The ids of the active tasks, in the order `Task.find({deletedAt: null})` yields them. */
  function ActiveIds(tasks: seq<Task>): (ids: seq<Id>)
    ensures |ids| <= |tasks|
    ensures forall id :: id in ids <==> exists t :: t in tasks && Active(t) && t.id == id
  {
    if tasks == [] then []
    else
      var last := tasks[|tasks| - 1];
      assert tasks == tasks[..|tasks| - 1] + [last];
      ActiveIds(tasks[..|tasks| - 1]) + if Active(last) then [last.id] else []
  }

  /** The ids come one per active task, in fetch order: they are the ids of the
      tasks the query returns, position by position. */
  lemma {:induction false} ActiveIdsInFetchOrder(tasks: seq<Task>)
    ensures |ActiveIds(tasks)| == |Filter(tasks, Active)|
    ensures forall i :: 0 <= i < |ActiveIds(tasks)| ==> ActiveIds(tasks)[i] == Filter(tasks, Active)[i].id
  {
    if tasks != [] {
      var init := tasks[..|tasks| - 1];
      var last := tasks[|tasks| - 1];
      assert tasks == init + [last];
      ActiveIdsInFetchOrder(init);
      FilterSnoc(init, last, Active);
    }
  }

  /** updateTaskPriority: walks the active tasks, stores each one's recomputed tier
      and returns their ids; the subtask and user collections are not touched. */
  method UpdateTaskPriority(db: Store, now: int) returns (updatedIds: seq<Id>)
    requires db.Valid()
    modifies db
    ensures db.Valid()
    ensures db.tasks == Refreshed(old(db.tasks), DayOf(now))
    ensures updatedIds == ActiveIds(old(db.tasks))
    ensures db.subTasks == old(db.subTasks) && db.users == old(db.users) && db.nextId == old(db.nextId)
  {
    var today := DayOf(now);
    var i := 0;
    updatedIds := [];
    while i < |db.tasks|
      invariant db.Valid() && 0 <= i <= |db.tasks| == |old(db.tasks)|
      invariant forall j :: 0 <= j < i ==> db.tasks[j] == RefreshOne(old(db.tasks)[j], today)
      invariant forall j :: i <= j < |db.tasks| ==> db.tasks[j] == old(db.tasks)[j]
      invariant updatedIds == ActiveIds(old(db.tasks)[..i])
      invariant db.subTasks == old(db.subTasks) && db.users == old(db.users) && db.nextId == old(db.nextId)
    {
      var task := db.tasks[i];
      assert task == old(db.tasks)[i];
      if task.deletedAt.None? {
        task := task.(priority := CalculateTaskPriority(task.dueDay, today));
        db.WriteTasks(db.tasks[i := task]);
        updatedIds := updatedIds + [task.id];
      }
      assert db.tasks[i] == RefreshOne(old(db.tasks)[i], today);
      assert old(db.tasks)[..i + 1][..i] == old(db.tasks)[..i];
      assert old(db.tasks)[..i + 1][i] == old(db.tasks)[i];
      i := i + 1;
    }
    assert old(db.tasks)[..i] == old(db.tasks);
    assert db.tasks == Refreshed(old(db.tasks), today);
  }
}
