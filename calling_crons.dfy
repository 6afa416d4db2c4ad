/** src/crons/calling.crons.js and src/utils/twilio.js: the daily job that phones the
    owners of overdue tasks, most important users first. */
module CallingCrons {
  import opened Api
  import opened Js
  import opened Helper
  import opened Models
  import opened Db

  /** The text every reminder starts with; the task's title follows it. */
  const ReminderPrefix: string := "Hello this is a reminder for your task "

  /** The error makeOutGoingCall throws when the telephony service refuses a call. */
  const CallFailed: Error := ApiError(500, "Error making call")

  /** Whether the k-th call goes through under a script of answers; past the end of
      the script every call does. */
  predicate GoesThrough(answers: seq<bool>, k: nat) {
    k >= |answers| || answers[k]
  }

  /** One outgoing call: the number dialled and the message spoken. */
  datatype Call = Call(to: string, message: string)

  /** The scripted telephony service. The `answers` script says whether each call,
      counted from the first, goes through; past its end every call does. */
  class Notifier {
    const answers: seq<bool>
    /** Every call requested so far, in order. */
    var calls: seq<Call>

    constructor (answers: seq<bool>)
      ensures this.answers == answers && calls == []
    {
      this.answers := answers;
      calls := [];
    }

    /** Whether the k-th call goes through. */
    predicate Answer(k: nat) {
      GoesThrough(answers, k)
    }

    /** makeOutGoingCall: the call is requested and recorded; `ok` is false where the
        source throws CallFailed. */
    method MakeOutgoingCall(c: Call) returns (ok: bool)
      modifies this
      ensures calls == old(calls) + [c]
      ensures ok == GoesThrough(answers, |old(calls)|)
    {
      ok := Answer(|calls|);
      calls := calls + [c];
    }
  }

  // ---------------------------------------------------------------- which tasks, which users

  /** The filter of the job's task query: not deleted, due at or before this instant,
      and not DONE. */
  predicate IsOverdue(t: Task, now: int) {
    t.deletedAt.None? && StartOfDay(t.dueDay) <= now && t.status != Done
  }

  /** `Task.find(...)` of the job: the overdue tasks, in natural order. A task is
      overdue from the first instant of its due day on, so a task due today is overdue. */
  function SelectOverdue(tasks: seq<Task>, now: int): (r: seq<Task>)
    ensures forall t :: t in r <==> t in tasks && t.deletedAt.None? && t.dueDay <= DayOf(now) && t.status != Done
  {
    OverdueByDay(tasks, now);
    Filter(tasks, (t: Task) => IsOverdue(t, now))
  }

  /** The instant test of the query, read in days. */
  lemma OverdueByDay(tasks: seq<Task>, now: int)
    ensures forall t :: t in tasks ==>
              (IsOverdue(t, now) <==> t.deletedAt.None? && t.dueDay <= DayOf(now) && t.status != Done)
  {
  }

  /** `tasks.map((task) => task.user)` as the `$in` operand. */
  function OwnerIds(tasks: seq<Task>): set<Id> {
    set t | t in tasks :: t.owner
  }

  /** The users of one priority, in natural order. */
  function UsersWithPriority(users: seq<User>, p: UserPriority): seq<User> {
    Filter(users, (u: User) => u.priority == p)
  }

  /** `.sort({priority: 1})`: ascending priority; users of equal priority keep their
      natural order. */
  function SortByPriority(users: seq<User>): (r: seq<User>)
    ensures forall i, j :: 0 <= i < j < |r| ==> r[i].priority <= r[j].priority
  {
    UsersWithPriority(users, 0) + UsersWithPriority(users, 1) + UsersWithPriority(users, 2)
  }

  /** The sort neither drops nor duplicates a user. */
  lemma {:induction false} SortIsPermutation(users: seq<User>)
    ensures multiset(SortByPriority(users)) == multiset(users)
  {
    if users != [] {
      var x, rest := users[0], users[1..];
      SortIsPermutation(rest);
      assert users == [x] + rest;
      SortedBands(users);
      SortedBands(rest);
      BandCons(x, rest, 0);
      BandCons(x, rest, 1);
      BandCons(x, rest, 2);
    }
  }

  /** The sorted users, counted, are the three priority bands counted together. */
  lemma SortedBands(users: seq<User>)
    ensures multiset(SortByPriority(users)) ==
              multiset(UsersWithPriority(users, 0)) + multiset(UsersWithPriority(users, 1))
              + multiset(UsersWithPriority(users, 2))
  {
  }

  /** A user put in front joins exactly the band of its own priority. */
  lemma BandCons(x: User, rest: seq<User>, p: UserPriority)
    ensures multiset(UsersWithPriority([x] + rest, p)) ==
              (if x.priority == p then multiset{x} else multiset{}) + multiset(UsersWithPriority(rest, p))
  {
    assert ([x] + rest)[1..] == rest;
  }

  /** `User.find({_id: {$in: owners}})`, in natural order. */
  function UsersIn(users: seq<User>, owners: set<Id>): (r: seq<User>)
    ensures forall u :: u in r <==> u in users && u.id in owners
  {
    Filter(users, (u: User) => u.id in owners)
  }

  /** The sort keeps exactly the users it is given. */
  lemma SortKeepsMembers(users: seq<User>)
    ensures forall u :: u in SortByPriority(users) <==> u in users
  {
  }

  /** `User.find({_id: {$in: owners}}).sort({priority: 1})`. */
  function UsersToCall(users: seq<User>, owners: set<Id>): (r: seq<User>)
    ensures forall u :: u in r <==> u in users && u.id in owners
    ensures forall i, j :: 0 <= i < j < |r| ==> r[i].priority <= r[j].priority
    ensures multiset(r) == multiset(UsersIn(users, owners))
  {
    SortIsPermutation(UsersIn(users, owners));
    SortKeepsMembers(UsersIn(users, owners));
    SortByPriority(UsersIn(users, owners))
  }

  /** `tasks.find((task) => task.user === id)`, as a position. */
  function FirstOwnedIndex(overdue: seq<Task>, id: Id): (k: Option<nat>)
    ensures k.Some? ==> k.value < |overdue| && overdue[k.value].owner == id
    ensures k.Some? ==> forall j :: 0 <= j < k.value ==> overdue[j].owner != id
    ensures k.None? <==> id !in OwnerIds(overdue)
  {
    var k := FindIndex(overdue, (t: Task) => t.owner == id);
    if k.None? then
      NoOwnerAtAnyIndex(overdue, id);
      k
    else k
  }

  /** An id owning no task at any position owns no task. */
  lemma NoOwnerAtAnyIndex(tasks: seq<Task>, id: Id)
    requires forall j :: 0 <= j < |tasks| ==> tasks[j].owner != id
    ensures id !in OwnerIds(tasks)
  {
  }

  /** The reminder for one user: their number, and the title of the first overdue
      task, in natural order, that they own. */
  function ReminderFor(u: User, overdue: seq<Task>): (c: Call)
    requires u.id in OwnerIds(overdue)
    ensures c.to == u.phoneNumber
    ensures exists k :: 0 <= k < |overdue| && overdue[k].owner == u.id
              && c.message == ReminderPrefix + overdue[k].title
              && forall j :: 0 <= j < k ==> overdue[j].owner != u.id
  {
    match FirstOwnedIndex(overdue, u.id)
    case Some(k) => Call(u.phoneNumber, ReminderPrefix + overdue[k].title)
    case None => assert false; Call(u.phoneNumber, "")
  }

  /** The reminder for a user whose first overdue task is at `k`. */
  lemma ReminderAt(u: User, overdue: seq<Task>, k: nat)
    requires FirstOwnedIndex(overdue, u.id) == Some(k)
    ensures ReminderFor(u, overdue) == Call(u.phoneNumber, ReminderPrefix + overdue[k].title)
  {
  }

  /** The calls for a list of callees, one each, in the list's order. */
  function Reminders(callees: seq<User>, overdue: seq<Task>): (plan: seq<Call>)
    requires forall u :: u in callees ==> u.id in OwnerIds(overdue)
    ensures |plan| == |callees|
    ensures forall i :: 0 <= i < |callees| ==> plan[i] == ReminderFor(callees[i], overdue)
  {
    seq(|callees|, i requires 0 <= i < |callees| => ReminderFor(callees[i], overdue))
  }

  /** Every call the job means to make, in order: one per selected user, in priority
      order, each naming that user's first overdue task. */
  function ReminderPlan(tasks: seq<Task>, users: seq<User>, now: int): (plan: seq<Call>)
    ensures |plan| == |UsersToCall(users, OwnerIds(SelectOverdue(tasks, now)))|
    ensures forall i :: 0 <= i < |plan| ==>
              plan[i].to == UsersToCall(users, OwnerIds(SelectOverdue(tasks, now)))[i].phoneNumber
  {
    var overdue := SelectOverdue(tasks, now);
    Reminders(UsersToCall(users, OwnerIds(overdue)), overdue)
  }

  /** With nothing overdue, nobody is called. */
  lemma NothingOverdueNoCalls(tasks: seq<Task>, users: seq<User>, now: int)
    requires forall t :: t in tasks ==> t.deletedAt.Some? || t.status == Done || t.dueDay > DayOf(now)
    ensures ReminderPlan(tasks, users, now) == []
  {
  }

  /** The callees are exactly the users who own an overdue task, and each of them is
      called as often as they appear in the user collection: once, when ids are unique. */
  lemma CalleesAreOverdueOwners(tasks: seq<Task>, users: seq<User>, now: int, u: User)
    requires UniqueUserIds(users)
    ensures var callees := UsersToCall(users, OwnerIds(SelectOverdue(tasks, now)));
            u in callees <==>
              u in users && exists t :: t in tasks && t.owner == u.id && t.deletedAt.None?
                                       && t.dueDay <= DayOf(now) && t.status != Done
    ensures var callees := UsersToCall(users, OwnerIds(SelectOverdue(tasks, now)));
            u in callees ==> multiset(callees)[u] == 1
  {
    var owners := OwnerIds(SelectOverdue(tasks, now));
    var callees := UsersToCall(users, owners);
    if u in callees {
      FilterKeepsUnique(users, (v: User) => v.id in owners);
      UniqueOnce(UsersIn(users, owners), u);
    }
  }

  /** Filtering keeps ids unique. */
  lemma {:induction false} FilterKeepsUnique(users: seq<User>, p: User -> bool)
    requires UniqueUserIds(users)
    ensures UniqueUserIds(Filter(users, p))
  {
    if users != [] {
      FilterKeepsUnique(users[1..], p);
      var rest := Filter(users[1..], p);
      if p(users[0]) {
        var r := [users[0]] + rest;
        forall i, j | 0 <= i < j < |r| ensures r[i].id != r[j].id {
          if i == 0 {
            assert r[j] in users[1..];
          }
        }
      }
    }
  }

  /** In a sequence of users with unique ids, a member occurs exactly once. */
  lemma {:induction false} UniqueOnce(users: seq<User>, u: User)
    requires UniqueUserIds(users) && u in users
    ensures multiset(users)[u] == 1
  {
    assert users == [users[0]] + users[1..];
    if users[0] == u {
      forall j | 0 <= j < |users[1..]| ensures users[1..][j] != u {
        assert users[j + 1].id != users[0].id;
      }
    } else {
      UniqueOnce(users[1..], u);
    }
  }

  // ---------------------------------------------------------------- the job

  /** How a run of the job ends: every call made, or stopped by the call at `failed`
      (counted from the first call of the run), whose error the job does not catch. */
  datatype DispatchOutcome = Finished | Aborted(failed: nat, error: Error)

  /** A run that works through `plan` one call at a time and stops at the first call
      the script refuses: `before` and `after` are the calls requested before and
      after the run. */
  predicate Dispatched(plan: seq<Call>, answers: seq<bool>, before: seq<Call>, after: seq<Call>,
                       outcome: DispatchOutcome)
  {
    match outcome
    case Finished =>
      && after == before + plan
      && forall i :: |before| <= i < |before| + |plan| ==> GoesThrough(answers, i)
    case Aborted(k, e) =>
      && k < |plan| && e == CallFailed
      && after == before + plan[..k + 1]
      && !GoesThrough(answers, |before| + k)
      && forall i :: |before| <= i < |before| + k ==> GoesThrough(answers, i)
  }

  /** When every call goes through, the run makes the whole plan. */
  lemma AllAnsweredFinishes(plan: seq<Call>, answers: seq<bool>, before: seq<Call>, after: seq<Call>,
                            outcome: DispatchOutcome)
    requires Dispatched(plan, answers, before, after, outcome)
    requires forall i :: 0 <= i < |answers| ==> answers[i]
    ensures outcome == Finished && after == before + plan
  {
  }

  /** The loop of callDueDatePassedUsers over the sorted users: finds each user's
      first overdue task and awaits the call, stopping at the first that fails. */
  method CallEach(users: seq<User>, tasks: seq<Task>, notifier: Notifier) returns (outcome: DispatchOutcome)
    requires forall u :: u in users ==> u.id in OwnerIds(tasks)
    modifies notifier
    ensures Dispatched(Reminders(users, tasks), notifier.answers, old(notifier.calls), notifier.calls, outcome)
  {
    ghost var plan := Reminders(users, tasks);
    ghost var n := |notifier.calls|;
    var i := 0;
    while i < |users|
      invariant 0 <= i <= |users| == |plan|
      invariant notifier.calls == old(notifier.calls) + plan[..i]
      invariant forall j :: n <= j < n + i ==> GoesThrough(notifier.answers, j)
    {
      var user := users[i];
      assert user.id in OwnerIds(tasks);
      var k := FirstOwnedIndex(tasks, user.id);
      if k.None? {
        assert false;
      }
      ReminderAt(user, tasks, k.value);
      var ok := notifier.MakeOutgoingCall(Call(user.phoneNumber, ReminderPrefix + tasks[k.value].title));
      assert plan[..i + 1] == plan[..i] + [plan[i]];
      if !ok {
        return Aborted(i, CallFailed);
      }
      i := i + 1;
    }
    assert plan[..i] == plan;
    outcome := Finished;
  }

  /** callDueDatePassedUsers: selects the overdue tasks and their owners, sorted by
      priority, and calls them one after another until a call fails; the store is
      only read. */
  method CallDueDatePassedUsers(db: Store, now: int, notifier: Notifier) returns (outcome: DispatchOutcome)
    modifies notifier
    ensures Dispatched(ReminderPlan(db.tasks, db.users, now), notifier.answers, old(notifier.calls), notifier.calls, outcome)
  {
    var tasks := SelectOverdue(db.tasks, now);
    var users := UsersToCall(db.users, OwnerIds(tasks));
    outcome := CallEach(users, tasks, notifier);
  }
}
