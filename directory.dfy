/**
 * The user directory (src/UserList.java, src/UserListImpl.java): an ordered list of users
 * deduplicated by name, plus one slot for a pending, randomly delayed list-update broadcast.
 * The interface's constants live here; its documented contracts are the ensures clauses of
 * the class's methods.
 */
module Directory {
  import opened Common
  import opened Users

  /** The broadcast delay is drawn from [MIN_UPDATE_BROADCAST_TIME, MAX_UPDATE_BROADCAST_TIME) milliseconds. */
  const MIN_UPDATE_BROADCAST_TIME := 500
  const MAX_UPDATE_BROADCAST_TIME := 5000

  /** ", " */
  const SEPARATOR: Bytes := [44, 32]

  /** A `Runnable` handed to `scheduleListUpdate`; the directory compares these by identity. */
  class Task {
    constructor ()
    {
    }
  }

  datatype TimerTaskState = Scheduled | Cancelled | Executed

  /** The `TimerTask` wrapping a runnable, the delay it was armed with, and how far it got. */
  datatype TimerTask = TimerTask(runnable: Task, delay: int, state: TimerTaskState)

  /**
   * What `addAllDistinct` appends: the non-null inputs whose name is absent from the list as it
   * was before the call, in input order.
   */
  function NewUsers(input: seq<Option<User>>, present: seq<User>): (added: seq<User>)
    ensures |added| <= |input|
    ensures forall u :: u in added ==> Some(u) in input && !HasName(present, u.userName)
  {
    if input == [] then []
    else
      var rest := NewUsers(input[1..], present);
      if input[0].Some? && !HasName(present, input[0].value.userName) then [input[0].value] + rest else rest
  }

  /** What `removeByName` keeps: every entry whose name differs, in the original order. */
  function WithoutName(users: seq<User>, name: Bytes): (kept: seq<User>)
    ensures |kept| <= |users|
    ensures !HasName(kept, name)
    ensures forall u :: u in kept ==> u in users
  {
    if users == [] then []
    else (if users[0].userName == name then [] else [users[0]]) + WithoutName(users[1..], name)
  }

  /** `Collectors.joining(", ")` over the names. */
  function JoinNames(users: seq<User>): (text: Bytes)
  {
    if |users| == 0 then []
    else if |users| == 1 then users[0].userName
    else users[0].userName + SEPARATOR + JoinNames(users[1..])
  }

  /** The slot after `timerTask.cancel()`: a task that exists becomes cancelled, whatever it was. */
  function CancelledTask(t: Option<TimerTask>): (cancelled: Option<TimerTask>)
  {
    if t.None? then None else Some(t.value.(state := Cancelled))
  }

  class UserListImpl {
    var users: seq<User>
    var timerTask: Option<TimerTask>
    var currentRunnable: Task?

    /**
     * The bookkeeping invariant: a remembered runnable is the one the last timer task wraps and
     * that task was not cancelled; a task still scheduled is the remembered one; every delay
     * lies in the broadcast window.
     */
    ghost predicate Valid()
      reads this
    {
      && (timerTask.None? ==> currentRunnable == null)
      && (timerTask.Some? ==> MIN_UPDATE_BROADCAST_TIME <= timerTask.value.delay < MAX_UPDATE_BROADCAST_TIME)
      && (currentRunnable != null ==>
            timerTask.Some? && timerTask.value.runnable == currentRunnable && timerTask.value.state != Cancelled)
      && (timerTask.Some? && timerTask.value.state == Scheduled ==> currentRunnable == timerTask.value.runnable)
    }

    /** A broadcast is armed and has neither run nor been cancelled. */
    predicate IsPending()
      reads this
    {
      timerTask.Some? && timerTask.value.state == Scheduled
    }

    constructor ()
      ensures Valid()
      ensures users == [] && timerTask.None? && currentRunnable == null
    {
      users := [];
      timerTask := None;
      currentRunnable := null;
    }

    /** `addDistinct`: appends the user iff it is non-null and no entry has its name. */
    method AddDistinct(user: Option<User>) returns (isUserAdded: bool)
      requires Valid()
      modifies this`users
      ensures Valid()
      ensures isUserAdded <==> user.Some? && !HasName(old(users), user.value.userName)
      ensures users == if isUserAdded then old(users) + [user.value] else old(users)
      ensures DistinctNames(old(users)) ==> DistinctNames(users)
    {
      if user.None? {
        return false;
      }
      isUserAdded := !HasName(users, user.value.userName);
      if isUserAdded {
        users := users + [user.value];
      }
    }

    /** `addAllDistinct`: appends the non-null inputs whose names were absent before the call. */
    method AddAllDistinct(input: seq<Option<User>>)
      requires Valid()
      modifies this`users
      ensures Valid()
      ensures users == old(users) + NewUsers(input, old(users))
    {
      var distinctUsers := NewUsers(input, users);
      users := users + distinctUsers;
    }

    /** `removeByName`: drops every entry with the given user's name. */
    method RemoveByName(user: User)
      requires Valid()
      modifies this`users
      ensures Valid()
      ensures users == WithoutName(old(users), user.userName)
    {
      users := WithoutName(users, user.userName);
    }

    /** `asCollection`: a copy of the current entries, in order. */
    method AsCollection() returns (copy: seq<User>)
      ensures copy == users
    {
      copy := users;
    }

    method GetNumberOfUsers() returns (n: nat)
      ensures n == |users|
    {
      n := |users|;
    }

    /** `toString`: the names joined by ", " in list order. */
    method ToString() returns (s: Bytes)
      ensures s == JoinNames(users)
    {
      s := JoinNames(users);
    }

    /**
     * `scheduleListUpdate`: the runnable remembered is `task` itself, so nothing happens;
     * otherwise any earlier task is cancelled and `task` is armed with a delay drawn from the
     * broadcast window.
     */
    method ScheduleListUpdate(task: Task)
      requires Valid()
      modifies this`timerTask, this`currentRunnable
      ensures Valid()
      ensures old(currentRunnable) == task ==>
                timerTask == old(timerTask) && currentRunnable == old(currentRunnable)
      ensures old(currentRunnable) != task ==>
                currentRunnable == task && IsPending() && timerTask.value.runnable == task
    {
      if currentRunnable != task {
        CancelListUpdate();
        currentRunnable := task;
        var delay :| MIN_UPDATE_BROADCAST_TIME <= delay < MAX_UPDATE_BROADCAST_TIME;
        timerTask := Some(TimerTask(task, delay, Scheduled));
      }
    }

    /**
     * `cancelListUpdate`: once any task was ever created, cancels it and forgets the runnable;
     * before that, nothing changes. Nothing is pending afterwards.
     */
    method CancelListUpdate()
      requires Valid()
      modifies this`timerTask, this`currentRunnable
      ensures Valid()
      ensures !IsPending()
      ensures timerTask == CancelledTask(old(timerTask))
      ensures currentRunnable == if old(timerTask).None? then old(currentRunnable) else null
    {
      if timerTask.Some? {
        timerTask := Some(timerTask.value.(state := Cancelled));
        currentRunnable := null;
      }
    }

    /**
     * The timer thread reaching an armed task's delay and running it (the anonymous
     * `TimerTask.run`): only a pending task runs, and the remembered runnable stays.
     */
    method RunDueTask() returns (ran: Task?)
      requires Valid()
      modifies this`timerTask
      ensures Valid()
      ensures ran != null <==> old(IsPending())
      ensures ran != null ==> ran == old(currentRunnable)
      ensures !IsPending()
      ensures timerTask == if old(IsPending()) then Some(old(timerTask).value.(state := Executed)) else old(timerTask)
    {
      if IsPending() {
        ran := timerTask.value.runnable;
        timerTask := Some(timerTask.value.(state := Executed));
      } else {
        ran := null;
      }
    }
  }
}
