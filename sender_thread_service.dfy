/**
 * SenderThreadService: creates and updates sender workers through
 * SenderThreadRepository and keeps, in runningSenders, the task it last
 * submitted for each worker. One call of Tick is one round of a submitted
 * task's loop: emit when a period has passed, then check the record.
 */
module SenderThreadService {
  import opened Wrappers
  import opened Threads
  import opened Store
  import ThreadMapper
  import Repo = SenderThreadRepository
  import opened Lifecycle
  import opened SharedQueue

  /** The message a sender puts on the queue; the timestamp is the formatted wall clock. */
  function SenderMessage(id: Uuid, timestamp: string): string {
    "Data from sender " + IdText(Some(id)) + " at " + timestamp
  }

  class SenderThreadService {
    const sharedQueue: BlockingQueue
    /** The sender table behind the repository. */
    var senders: Table
    /** runningSenders: the task last submitted per worker id. */
    var runningSenders: map<Uuid, Task>
    /** Ids below nextId are taken; UUID.randomUUID hands out nextId. */
    var nextId: Uuid
    /** The handle the next submitted task gets. */
    var nextHandle: nat

    predicate Valid()
      reads this
    {
      && Store.Valid(senders)
      && IdsBelow(senders, nextId)
      && (forall u | u in runningSenders :: runningSenders[u].handle < nextHandle)
    }

    /** The service over an existing table; no task runs yet. */
    constructor (queue: BlockingQueue, table: Table, firstFreshId: Uuid)
      requires Store.Valid(table) && IdsBelow(table, firstFreshId)
      ensures Valid()
      ensures sharedQueue == queue && senders == table && runningSenders == map[]
      ensures nextId == firstFreshId && nextHandle == 0
    {
      sharedQueue := queue;
      senders := table;
      runningSenders := map[];
      nextId := firstFreshId;
      nextHandle := 0;
    }

    /** runSenderThreadLifeCycle: submit a new task for id and put its Future in the registry, replacing any earlier one. */
    method RunSenderThreadLifeCycle(id: Uuid, now: int)
      requires Valid()
      modifies this
      ensures Valid()
      ensures runningSenders == old(runningSenders)[id := Task(old(nextHandle), now, None)]
      ensures nextHandle == old(nextHandle) + 1
      ensures senders == old(senders) && nextId == old(nextId)
    {
      runningSenders := runningSenders[id := Task(nextHandle, now, None)];
      nextHandle := nextHandle + 1;
    }

    /** The loop both createSenderThreadsWithAmount and startSenderThreadsLifeCycle run: one submission per id, in order. */
    method RunEach(ids: seq<Uuid>, now: int)
      requires Valid()
      modifies this
      ensures Valid()
      ensures runningSenders == ScheduleAll(old(runningSenders), ids, old(nextHandle), now)
      ensures nextHandle == old(nextHandle) + |ids|
      ensures senders == old(senders) && nextId == old(nextId)
    {
      var j := 0;
      while j < |ids|
        invariant 0 <= j <= |ids|
        invariant Valid()
        invariant runningSenders == ScheduleAll(old(runningSenders), ids[..j], old(nextHandle), now)
        invariant nextHandle == old(nextHandle) + j
        invariant senders == old(senders) && nextId == old(nextId)
      {
        assert ids[..j + 1][..j] == ids[..j];
        RunSenderThreadLifeCycle(ids[j], now);
        j := j + 1;
      }
      assert ids[..j] == ids;
    }

    /**
     * createSenderThreadsWithAmount: build amount RUNNING senders with fresh
     * ids, persist them in one call, then submit one task per id.
     */
    method CreateSenderThreadsWithAmount(amount: Option<int>, now: int) returns (r: Outcome<seq<ThreadDto>>)
      requires Valid()
      modifies this
      ensures Valid()
      ensures amount.None? ==>
        && r == Thrown(IllegalArgument)
        && senders == old(senders) && runningSenders == old(runningSenders)
        && nextId == old(nextId) && nextHandle == old(nextHandle)
      ensures amount.Some? ==>
        var n := if amount.value < 0 then 0 else amount.value;
        && r == Returned(Batch(SENDER, old(nextId), n))
        && senders == old(senders) + ThreadMapper.EntityList(Batch(SENDER, old(nextId), n))
        && runningSenders == ScheduleAll(old(runningSenders), Ids(Batch(SENDER, old(nextId), n)), old(nextHandle), now)
        && nextId == old(nextId) + n && nextHandle == old(nextHandle) + n
    {
      if amount.None? {
        r := Thrown(IllegalArgument);
        return;
      }
      var list: seq<ThreadDto> := [];
      var first := nextId;
      var i := 0;
      while i < amount.value
        invariant 0 <= i <= if amount.value < 0 then 0 else amount.value
        invariant list == Batch(SENDER, first, i)
        invariant nextId == first + i
        invariant senders == old(senders) && runningSenders == old(runningSenders) && nextHandle == old(nextHandle)
      {
        list := list + [ThreadDto(Some(nextId), Some(SENDER), Some(RUNNING), Some(NORM_PRIORITY))];
        nextId := nextId + 1;
        i := i + 1;
      }
      BatchStorable(senders, SENDER, first, i);
      SaveAllFresh(senders, ThreadMapper.EntityList(list));
      AppendValid(senders, ThreadMapper.EntityList(list));
      // Every row of the batch is storable, so the bulk save returns normally.
      var step := Repo.CreateSenderThreadsWithList(senders, list);
      senders := step.table;

      RunEach(Ids(list), now);
      r := Returned(list);
    }

    /**
     * updateSenderThread: a null DTO is a NullPointerException before any
     * lookup, a null id fails in the lookup, an unknown id is an
     * IllegalArgumentException; otherwise the repository merges the input,
     * and a task is submitted when the worker goes from not RUNNING to RUNNING.
     */
    method UpdateSenderThread(dto: Option<ThreadDto>, now: int) returns (r: Outcome<ThreadDto>)
      requires Valid()
      modifies this
      ensures Valid()
      ensures nextId == old(nextId)
      ensures dto.None? ==>
        && r == Thrown(NullPointer)
        && senders == old(senders) && runningSenders == old(runningSenders) && nextHandle == old(nextHandle)
      ensures dto.Some? && dto.value.id.None? ==>
        && r == Thrown(ManagementWrapping)
        && senders == old(senders) && runningSenders == old(runningSenders) && nextHandle == old(nextHandle)
      ensures dto.Some? && dto.value.id.Some? && Find(old(senders), dto.value.id.value).None? ==>
        && r == Thrown(IllegalArgument)
        && senders == old(senders) && runningSenders == old(runningSenders) && nextHandle == old(nextHandle)
      ensures dto.Some? && dto.value.id.Some? && Find(old(senders), dto.value.id.value).Some? ==>
        && r == Returned(dto.value)
        && senders == Repo.UpdateSenderThread(old(senders), dto).table
        && if Starts(dto.value.state, Find(old(senders), dto.value.id.value).value.state)
           then runningSenders == old(runningSenders)[dto.value.id.value := Task(old(nextHandle), now, None)]
                && nextHandle == old(nextHandle) + 1
           else runningSenders == old(runningSenders) && nextHandle == old(nextHandle)
    {
      if dto.None? {
        r := Thrown(NullPointer);
        return;
      }
      var d := dto.value;
      var current := Repo.GetSenderThreadById(senders, d.id);
      match current
      case Thrown(e) =>
        r := Thrown(e);
      case Returned(None) =>
        r := Thrown(IllegalArgument);
      case Returned(Some(stored)) =>
        var step := Repo.UpdateSenderThread(senders, dto);
        KeysKept(senders, step.table, nextId);
        senders := step.table;
        r := step.result;
        if r.Returned? && Starts(d.state, stored.state) {
          RunSenderThreadLifeCycle(d.id.value, now);
        }
    }

    /**
     * updateSenderThreadState: a null id fails in the lookup, an unknown id
     * is an IllegalArgumentException; otherwise the repository sets the
     * state, and a task is submitted when the worker goes from not RUNNING
     * to RUNNING.
     */
    method UpdateSenderThreadState(id: Option<Uuid>, state: Option<ThreadState>, now: int) returns (r: Outcome<Option<Uuid>>)
      requires Valid()
      modifies this
      ensures Valid()
      ensures nextId == old(nextId)
      ensures id.None? ==>
        && r == Thrown(ManagementWrapping)
        && senders == old(senders) && runningSenders == old(runningSenders) && nextHandle == old(nextHandle)
      ensures id.Some? && Find(old(senders), id.value).None? ==>
        && r == Thrown(IllegalArgument)
        && senders == old(senders) && runningSenders == old(runningSenders) && nextHandle == old(nextHandle)
      ensures id.Some? && Find(old(senders), id.value).Some? && state.None? ==>
        && r == Thrown(Management("Thread State Can't Be Null"))
        && senders == old(senders) && runningSenders == old(runningSenders) && nextHandle == old(nextHandle)
      ensures id.Some? && Find(old(senders), id.value).Some? && state.Some? ==>
        && r == Returned(id)
        && senders == Repo.UpdateSenderThreadState(old(senders), id, state).table
        && if Starts(state, Find(old(senders), id.value).value.state)
           then runningSenders == old(runningSenders)[id.value := Task(old(nextHandle), now, None)]
                && nextHandle == old(nextHandle) + 1
           else runningSenders == old(runningSenders) && nextHandle == old(nextHandle)
    {
      var current := Repo.GetSenderThreadById(senders, id);
      match current
      case Thrown(e) =>
        r := Thrown(e);
      case Returned(None) =>
        r := Thrown(IllegalArgument);
      case Returned(Some(stored)) =>
        var step := Repo.UpdateSenderThreadState(senders, id, state);
        KeysKept(senders, step.table, nextId);
        senders := step.table;
        r := step.result;
        if r.Returned? && Starts(state, stored.state) {
          RunSenderThreadLifeCycle(id.value, now);
        }
    }

    /** updateSenderThreadPriority: the repository's update; no task is submitted or cancelled. */
    method UpdateSenderThreadPriority(id: Option<Uuid>, priority: Option<int>) returns (r: Outcome<Option<Uuid>>)
      requires Valid()
      modifies this
      ensures Valid()
      ensures r == Repo.UpdateSenderThreadPriority(old(senders), id, priority).result
      ensures senders == Repo.UpdateSenderThreadPriority(old(senders), id, priority).table
      ensures runningSenders == old(runningSenders) && nextHandle == old(nextHandle) && nextId == old(nextId)
    {
      var step := Repo.UpdateSenderThreadPriority(senders, id, priority);
      KeysKept(senders, step.table, nextId);
      senders := step.table;
      r := step.result;
    }

    /** deleteSenderThreadById: the repository's delete; a running task notices on its next round. */
    method DeleteSenderThreadById(id: Option<Uuid>) returns (r: Outcome<Option<Uuid>>)
      requires Valid()
      modifies this
      ensures Valid()
      ensures r == Repo.DeleteSenderThreadById(old(senders), id).result
      ensures senders == Repo.DeleteSenderThreadById(old(senders), id).table
      ensures runningSenders == old(runningSenders) && nextHandle == old(nextHandle) && nextId == old(nextId)
    {
      var step := Repo.DeleteSenderThreadById(senders, id);
      KeysKept(senders, step.table, nextId);
      senders := step.table;
      r := step.result;
    }

    /** deleteAllSenderThreads: the repository's bulk delete. */
    method DeleteAllSenderThreads() returns (r: Outcome<bool>)
      requires Valid()
      modifies this
      ensures Valid()
      ensures r == Returned(true) && senders == []
      ensures runningSenders == old(runningSenders) && nextHandle == old(nextHandle) && nextId == old(nextId)
    {
      var step := Repo.DeleteAllSenderThreads(senders);
      senders := step.table;
      r := step.result;
    }

    /** startSenderThreadsLifeCycle: submit one task per RUNNING record, in table order. */
    method StartSenderThreadsLifeCycle(now: int) returns (r: bool)
      requires Valid()
      modifies this
      ensures Valid()
      ensures r
      ensures runningSenders == ScheduleAll(old(runningSenders), RunningWorkerIds(old(senders)), old(nextHandle), now)
      ensures nextHandle == old(nextHandle) + |RunningWorkerIds(old(senders))|
      ensures senders == old(senders) && nextId == old(nextId)
    {
      var active := Repo.GetActiveSenderThreads(senders);
      RunEach(Ids(active), now);
      r := true;
    }

    /**
     * One round of a sender task's loop: put a message when a period has
     * passed since the last one, then look the worker up. An absent or
     * STOPPED record cancels the registered task, removes it and ends the
     * loop; otherwise the thread takes the record's priority, and an
     * invalid one ends the task with an exception. A round describes a live
     * task: after a Crashed round the task has ended although its entry
     * stays in runningSenders, and no further round of it is meant.
     */
    method Tick(id: Uuid, now: int, timestamp: string) returns (outcome: TickOutcome)
      requires Valid() && id in runningSenders
      modifies this, sharedQueue
      ensures Valid()
      ensures senders == old(senders) && nextId == old(nextId) && nextHandle == old(nextHandle)
      ensures sharedQueue.items == old(sharedQueue.items) +
        (if now - old(runningSenders[id].lastProcessTime) >= TickPeriod then [SenderMessage(id, timestamp)] else [])
      ensures Check(Repo.GetSenderThreadById(senders, Some(id)).value).Terminate? ==>
        outcome == Terminated && runningSenders == old(runningSenders) - {id}
      ensures Check(Repo.GetSenderThreadById(senders, Some(id)).value).Crash? ==>
        outcome == Crashed && runningSenders == old(runningSenders)
      ensures Check(Repo.GetSenderThreadById(senders, Some(id)).value).Adopt? ==>
        && outcome == Continues
        && runningSenders == old(runningSenders)[id := Task(
             old(runningSenders[id].handle),
             if now - old(runningSenders[id].lastProcessTime) >= TickPeriod then now else old(runningSenders[id].lastProcessTime),
             Some(Check(Repo.GetSenderThreadById(senders, Some(id)).value).priority))]
    {
      var task := runningSenders[id];
      var lastProcessTime := task.lastProcessTime;
      if now - lastProcessTime >= TickPeriod {
        sharedQueue.Put(SenderMessage(id, timestamp));
        lastProcessTime := now;
      }
      var thisThread := Repo.GetSenderThreadById(senders, Some(id)).value;
      match Check(thisThread)
      case Terminate =>
        runningSenders := runningSenders - {id};
        outcome := Terminated;
      case Crash =>
        outcome := Crashed;
      case Adopt(p) =>
        runningSenders := runningSenders[id := Task(task.handle, lastProcessTime, Some(p))];
        outcome := Continues;
    }
  }

  /**
   * Once a worker's record is deleted, the next round of any of its tasks
   * ends the loop. That round still puts its message first when a period
   * has passed, since the put comes before the lookup (Tick's queue clause
   * holds whatever the verdict).
   */
  lemma DeletedWorkerStops(t: Table, u: Uuid)
    requires Valid(t)
    ensures Check(Repo.GetSenderThreadById(Repo.DeleteSenderThreadById(t, Some(u)).table, Some(u)).value) == Terminate
  {
    var after := Repo.DeleteSenderThreadById(t, Some(u)).table;
    assert Find(after, u).None?;
  }

  /**
   * Once a worker is set STOPPED, the next round of any of its tasks ends
   * the loop, again after putting that round's message when one is due.
   */
  lemma StoppedWorkerStops(t: Table, u: Uuid)
    requires Valid(t) && Find(t, u).Some?
    ensures Check(Repo.GetSenderThreadById(Repo.UpdateSenderThreadState(t, Some(u), Some(STOPPED)).table, Some(u)).value) == Terminate
  {
    var after := Repo.UpdateSenderThreadState(t, Some(u), Some(STOPPED)).table;
    assert Find(after, u).value.state == Some(STOPPED);
  }

  /**
   * A priority update of a RUNNING worker is what its task's next round
   * adopts; a priority outside [MIN_PRIORITY, MAX_PRIORITY], which the
   * repository accepts, ends that task with an exception instead.
   */
  lemma PriorityReachesTask(t: Table, u: Uuid, p: int)
    requires Valid(t) && Find(t, u).Some? && Find(t, u).value.state == Some(RUNNING)
    ensures var record := Repo.GetSenderThreadById(Repo.UpdateSenderThreadPriority(t, Some(u), Some(p)).table, Some(u)).value;
      if MIN_PRIORITY <= p <= MAX_PRIORITY then Check(record) == Adopt(p) else Check(record) == Crash
  {
    var after := Repo.UpdateSenderThreadPriority(t, Some(u), Some(p)).table;
    assert Find(after, u).value == Find(t, u).value.(priority := Some(p));
  }
}
