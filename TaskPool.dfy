/**
 * The task pool: posted tasks wait in a fixed-size optional array under a 64-bit id; the
 * worker repeatedly runs the task that is due first, reposting periodic tasks with their
 * execution time updated. Times are milliseconds of the steady clock.
 */
module TaskPools {
  import opened Wrappers
  import opened Algorithms
  import opened OptionalArrays

  /** `TaskId` is a `uint64_t` enum whose largest value means invalid. */
  const IdModulus: nat := 0x1_0000_0000_0000_0000
  const InvalidId: nat := IdModulus - 1

  /** How long the worker waits at most when nothing is due: two seconds. */
  const RegularWait: int := 2000

  /** `TaskDescription` without the function pointer and the text, which the model does not
      run or print. */
  datatype TaskDescription = TaskDescription(singleShot: bool, interval: int, argument: nat, lastExecuted: int)

  /** `std::pair<TaskId, TaskDescription>`. */
  datatype TaskInfo = TaskInfo(id: nat, description: TaskDescription)

  /** `calculateNextExecutionTime`. */
  function NextExecutionTime(d: TaskDescription): int {
    d.lastExecuted + d.interval
  }

  /** `nextId`: one more in the 64-bit underlying type. */
  function NextId(id: nat): (r: nat)
    requires id < IdModulus
    ensures r < IdModulus
    ensures id + 1 < IdModulus ==> r == id + 1
    ensures id == InvalidId ==> r == 0
  {
    (id + 1) % IdModulus
  }

  predicate IsRunnable(slot: Option<TaskInfo>) {
    slot.Some? && slot.value.id != InvalidId
  }

  /**
   * The selection loop of `handleTaskExecutions` over the first `n` slots: a later runnable
   * task replaces the chosen one only when it is due strictly earlier.
   */
  function SelectAmong(s: seq<Option<TaskInfo>>, n: nat): (r: Option<nat>)
    requires n <= |s|
    ensures r.Some? ==> r.value < n && IsRunnable(s[r.value])
  {
    if n == 0 then None
    else
      var best := SelectAmong(s, n - 1);
      if !IsRunnable(s[n - 1]) then best
      else if best.None? then Some(n - 1)
      else if NextExecutionTime(s[n - 1].value.description) < NextExecutionTime(s[best.value].value.description) then Some(n - 1)
      else best
  }

  /** The selected task is the first runnable one with the earliest next execution time, and
      there is none only when no task is runnable. */
  lemma {:induction false} SelectIsEarliestDue(s: seq<Option<TaskInfo>>, n: nat)
    requires n <= |s|
    ensures SelectAmong(s, n).None? <==> forall i :: 0 <= i < n ==> !IsRunnable(s[i])
    ensures var r := SelectAmong(s, n);
              r.Some? ==> forall i :: 0 <= i < n && IsRunnable(s[i]) ==>
                NextExecutionTime(s[r.value].value.description) <= NextExecutionTime(s[i].value.description)
    ensures var r := SelectAmong(s, n);
              r.Some? ==> forall i :: 0 <= i < r.value && IsRunnable(s[i]) ==>
                NextExecutionTime(s[r.value].value.description) < NextExecutionTime(s[i].value.description)
  {
    if n > 0 {
      SelectIsEarliestDue(s, n - 1);
    }
  }

  /** The wake-up condition of `doWork`: some runnable task's execution time has passed. */
  predicate AnyDue(s: seq<Option<TaskInfo>>, now: int) {
    exists i :: 0 <= i < |s| && IsRunnable(s[i]) && NextExecutionTime(s[i].value.description) < now
  }

  /** When the worker is woken because a task is due, the next round runs a task: the
      selected one is not in the future. */
  lemma WakeUpRunsATask(s: seq<Option<TaskInfo>>, now: int)
    requires AnyDue(s, now)
    ensures var k := SelectAmong(s, |s|);
              k.Some? && NextExecutionTime(s[k.value].value.description) <= now
  {
    SelectIsEarliestDue(s, |s|);
  }

  /** `removeTask`'s removal: every slot holding a task with the id is emptied. */
  function WithoutId(s: seq<Option<TaskInfo>>, id: nat): (r: seq<Option<TaskInfo>>)
    ensures |r| == |s|
    ensures forall i :: 0 <= i < |s| ==> (r[i] == None <==> s[i] == None || s[i].value.id == id)
    ensures forall i :: 0 <= i < |s| && r[i].Some? ==> r[i] == s[i]
  {
    seq(|s|, i requires 0 <= i < |s| => if s[i].Some? && s[i].value.id == id then None else s[i])
  }

  predicate HasId(s: seq<Option<TaskInfo>>, id: nat) {
    exists i :: 0 <= i < |s| && s[i].Some? && s[i].value.id == id
  }

  /** `append` on the slots: the first empty slot receives the value. */
  function Appended(s: seq<Option<TaskInfo>>, t: TaskInfo): (r: seq<Option<TaskInfo>>)
    ensures |r| == |s|
    ensures FirstEmpty(s).None? ==> r == s
    ensures FirstEmpty(s).Some? ==> r[FirstEmpty(s).value] == Some(t)
  {
    var k := FirstEmpty(s);
    if k.None? then s else s[k.value := Some(t)]
  }

  /** Removing a task leaves no slot with its id. */
  lemma RemovedIdIsGone(s: seq<Option<TaskInfo>>, id: nat)
    ensures !HasId(WithoutId(s, id), id)
  {
  }

  /** A task that is posted and then removed by its id leaves the pool as it was, provided no
      task held that id before. */
  lemma PostThenRemoveRestores(s: seq<Option<TaskInfo>>, t: TaskInfo)
    requires FirstEmpty(s).Some? && !HasId(s, t.id)
    ensures WithoutId(Appended(s, t), t.id) == s
  {
    var k := FirstEmpty(s).value;
    forall i | 0 <= i < |s|
      ensures WithoutId(Appended(s, t), t.id)[i] == s[i]
    {
      if i != k && s[i].Some? {
        assert s[i].value.id != t.id;
      }
    }
  }

  /** `TaskResourceTracker`: the argument of a posted task and its id; the tracker removes its
      task when it is invalidated or destroyed. */
  class TaskResourceTracker {
    const resource: nat
    var id: nat

    constructor (r: nat, i: nat)
      ensures resource == r && id == i
    {
      resource := r;
      id := i;
    }

    predicate IsActive()
      reads this
    {
      id != InvalidId
    }

    /** `invalidate`: an active tracker removes its task, and becomes inactive if the task was
        still in the pool. */
    method Invalidate(pool: TaskPool)
      requires pool.Valid()
      modifies this, pool.tasks.data
      ensures pool.Valid()
      ensures !old(IsActive()) ==> id == old(id) && pool.tasks.data[..] == old(pool.tasks.data[..])
      ensures old(IsActive()) ==> pool.tasks.data[..] == WithoutId(old(pool.tasks.data[..]), old(id))
      ensures old(IsActive()) ==> (!IsActive() <==> HasId(old(pool.tasks.data[..]), old(id)))
    {
      if !IsActive() {
        return;
      }
      var found, newId := pool.RemoveTask(id);
      id := newId;
    }
  }

  class TaskPool {
    const tasks: FixedSizeOptionalArray<TaskInfo>
    /** `_next_id`. */
    var nextId: nat

    ghost predicate Valid()
      reads this
    {
      nextId < IdModulus
    }

    /** An empty pool whose first id is 0. */
    constructor (poolSize: nat)
      ensures Valid() && fresh(tasks) && fresh(tasks.data) && nextId == 0
      ensures tasks.data[..] == seq(poolSize, _ => None)
    {
      tasks := new FixedSizeOptionalArray(poolSize);
      nextId := 0;
    }

    /** `postTask`: the task gets the current id, which then advances; when the pool is full
        the tracker carries the invalid id and nothing changes. */
    method PostTask(d: TaskDescription) returns (tracker: TaskResourceTracker)
      requires Valid()
      modifies this, tasks.data
      ensures Valid() && fresh(tracker) && tracker.resource == d.argument
      ensures FirstEmpty(old(tasks.data[..])).None? ==>
                tracker.id == InvalidId && tasks.data[..] == old(tasks.data[..]) && nextId == old(nextId)
      ensures FirstEmpty(old(tasks.data[..])).Some? ==>
                tracker.id == old(nextId) && nextId == NextId(old(nextId)) &&
                tasks.data[..] == Appended(old(tasks.data[..]), TaskInfo(old(nextId), d))
    {
      var added := tasks.Append(TaskInfo(nextId, d));
      if !added {
        tracker := new TaskResourceTracker(d.argument, InvalidId);
        return;
      }
      var createdId := nextId;
      nextId := NextId(nextId);
      tracker := new TaskResourceTracker(d.argument, createdId);
    }

    /** `removeTask`: the invalid id is refused; otherwise the task's slots are emptied and the
        caller's id becomes invalid if any was found. */
    method RemoveTask(id: nat) returns (found: bool, newId: nat)
      requires Valid()
      modifies tasks.data
      ensures Valid()
      ensures id == InvalidId ==> !found && newId == id && tasks.data[..] == old(tasks.data[..])
      ensures id != InvalidId ==> (found <==> HasId(old(tasks.data[..]), id)) &&
                                  tasks.data[..] == WithoutId(old(tasks.data[..]), id)
      ensures newId == if found then InvalidId else id
    {
      if id == InvalidId {
        return false, id;
      }
      ghost var before := tasks.data[..];
      found := false;
      var i := 0;
      while i < tasks.data.Length
        invariant i <= tasks.data.Length
        invariant tasks.data[..i] == WithoutId(before, id)[..i]
        invariant tasks.data[i..] == before[i..]
        invariant found <==> exists j :: 0 <= j < i && before[j].Some? && before[j].value.id == id
      {
        if tasks.data[i].Some? && tasks.data[i].value.id == id {
          tasks.data[i] := None;
          found := true;
        }
        i := i + 1;
      }
      assert tasks.data[..] == tasks.data[..i];
      newId := if found then InvalidId else id;
    }

    /** The selection loop of `handleTaskExecutions`. */
    method SelectTask() returns (k: Option<nat>)
      ensures k == SelectAmong(tasks.data[..], tasks.data.Length)
    {
      k := None;
      var i := 0;
      while i < tasks.data.Length
        invariant i <= tasks.data.Length
        invariant k == SelectAmong(tasks.data[..], i)
      {
        var slot := tasks.data[i];
        if IsRunnable(slot) {
          if k.None? {
            k := Some(i);
          } else if NextExecutionTime(slot.value.description) < NextExecutionTime(tasks.data[k.value].value.description) {
            k := Some(i);
          }
        }
        i := i + 1;
      }
    }

    /**
     * `handleTaskExecutions` at time `now`, the chosen task finishing at `finishedAt`:
     * nothing runnable, or the earliest task not yet due, leaves the pool as it is; a due task
     * is taken out, and a periodic one is reposted under the same id with its last execution
     * time set to `finishedAt`. Returns when the worker should look again.
     */
    method HandleTaskExecutions(now: int, finishedAt: int) returns (nextAt: int)
      requires Valid()
      modifies tasks.data
      ensures Valid()
      ensures var s := old(tasks.data[..]);
              var k := SelectAmong(s, |s|);
              if k.None? then
                nextAt == now + RegularWait && tasks.data[..] == s
              else
                var t := s[k.value].value;
                if NextExecutionTime(t.description) > now then
                  nextAt == NextExecutionTime(t.description) && tasks.data[..] == s
                else if t.description.singleShot then
                  nextAt == now + RegularWait && tasks.data[..] == WithoutId(s, t.id)
                else
                  var again := t.description.(lastExecuted := finishedAt);
                  tasks.data[..] == Appended(WithoutId(s, t.id), TaskInfo(t.id, again)) &&
                  nextAt == Min(now + RegularWait, NextExecutionTime(again))
    {
      var nextRegularExecution := now + RegularWait;
      var k := SelectTask();
      if k.None? {
        return nextRegularExecution;
      }
      var t := tasks.data[k.value].value;
      var wantsToExecuteAt := NextExecutionTime(t.description);
      if wantsToExecuteAt > now {
        return wantsToExecuteAt;
      }
      var _, _ := RemoveTask(t.id);
      if t.description.singleShot {
        return nextRegularExecution;
      }
      var again := t.description.(lastExecuted := finishedAt);
      RepostTask(TaskInfo(t.id, again));
      nextAt := Min(nextRegularExecution, NextExecutionTime(again));
    }

    /** `repostTask`: appends the task; a full pool drops it. */
    method RepostTask(t: TaskInfo)
      requires Valid()
      modifies tasks.data
      ensures Valid()
      ensures tasks.data[..] == Appended(old(tasks.data[..]), t)
    {
      var _ := tasks.Append(t);
    }
  }

}
