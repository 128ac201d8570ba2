/**
 * ReceiverThreadService: creates and updates receiver workers through
 * ReceiverThreadRepository and keeps, in runningReceivers, the task it
 * last submitted for each worker. One call of Tick is one round of a
 * submitted task's loop: check the record, then take a message when a
 * period has passed.
 */
module ReceiverThreadService {
  import opened Wrappers
  import opened Threads
  import opened Store
  import ThreadMapper
  import Repo = ReceiverThreadRepository
  import opened Lifecycle
  import opened SharedQueue

  class ReceiverThreadService {
    const sharedQueue: BlockingQueue
    /** The receiver table behind the repository. */
    var receivers: Table
    /** runningReceivers: the task last submitted per worker id. */
    var runningReceivers: map<Uuid, Task>
    /** Ids below nextId are taken; UUID.randomUUID hands out nextId. */
    var nextId: Uuid
    /** The handle the next submitted task gets. */
    var nextHandle: nat

    predicate Valid()
      reads this
    {
      && Store.Valid(receivers)
      && IdsBelow(receivers, nextId)
      && (forall u | u in runningReceivers :: runningReceivers[u].handle < nextHandle)
    }

    /** The service over an existing table; no task runs yet. */
    constructor (queue: BlockingQueue, table: Table, firstFreshId: Uuid)
      requires Store.Valid(table) && IdsBelow(table, firstFreshId)
      ensures Valid()
      ensures sharedQueue == queue && receivers == table && runningReceivers == map[]
      ensures nextId == firstFreshId && nextHandle == 0
    {
      sharedQueue := queue;
      receivers := table;
      runningReceivers := map[];
      nextId := firstFreshId;
      nextHandle := 0;
    }

    /** runReceiverThreadLifeCycle: submit a new task for id and put its Future in the registry, replacing any earlier one. */
    method RunReceiverThreadLifeCycle(id: Uuid, now: int)
      requires Valid()
      modifies this
      ensures Valid()
      ensures runningReceivers == old(runningReceivers)[id := Task(old(nextHandle), now, None)]
      ensures nextHandle == old(nextHandle) + 1
      ensures receivers == old(receivers) && nextId == old(nextId)
    {
      runningReceivers := runningReceivers[id := Task(nextHandle, now, None)];
      nextHandle := nextHandle + 1;
    }

    /** The loop both createReceiverThreadsWithAmount and startReceiverThreadsLifeCycle run: one submission per id, in order. */
    method RunEach(ids: seq<Uuid>, now: int)
      requires Valid()
      modifies this
      ensures Valid()
      ensures runningReceivers == ScheduleAll(old(runningReceivers), ids, old(nextHandle), now)
      ensures nextHandle == old(nextHandle) + |ids|
      ensures receivers == old(receivers) && nextId == old(nextId)
    {
      var j := 0;
      while j < |ids|
        invariant 0 <= j <= |ids|
        invariant Valid()
        invariant runningReceivers == ScheduleAll(old(runningReceivers), ids[..j], old(nextHandle), now)
        invariant nextHandle == old(nextHandle) + j
        invariant receivers == old(receivers) && nextId == old(nextId)
      {
        assert ids[..j + 1][..j] == ids[..j];
        RunReceiverThreadLifeCycle(ids[j], now);
        j := j + 1;
      }
      assert ids[..j] == ids;
    }

    /**
     * createReceiverThreadsWithAmount: build amount RUNNING receivers with
     * fresh ids, persist them in one call, then submit one task per id.
     */
    method CreateReceiverThreadsWithAmount(amount: Option<int>, now: int) returns (r: Outcome<seq<ThreadDto>>)
      requires Valid()
      modifies this
      ensures Valid()
      ensures amount.None? ==>
        && r == Thrown(IllegalArgument)
        && receivers == old(receivers) && runningReceivers == old(runningReceivers)
        && nextId == old(nextId) && nextHandle == old(nextHandle)
      ensures amount.Some? ==>
        var n := if amount.value < 0 then 0 else amount.value;
        && r == Returned(Batch(RECEIVER, old(nextId), n))
        && receivers == old(receivers) + ThreadMapper.EntityList(Batch(RECEIVER, old(nextId), n))
        && runningReceivers == ScheduleAll(old(runningReceivers), Ids(Batch(RECEIVER, old(nextId), n)), old(nextHandle), now)
        && nextId == old(nextId) + n && nextHandle == old(nextHandle) + n
    {
      if amount.None? {
        r := Thrown(IllegalArgument);
        return;
      }
      var list: seq<ThreadDto> := [];
      var first := nextId;
      var i := 0;
      while i < amount.value
        invariant 0 <= i <= if amount.value < 0 then 0 else amount.value
        invariant list == Batch(RECEIVER, first, i)
        invariant nextId == first + i
        invariant receivers == old(receivers) && runningReceivers == old(runningReceivers) && nextHandle == old(nextHandle)
      {
        list := list + [ThreadDto(Some(nextId), Some(RECEIVER), Some(RUNNING), Some(NORM_PRIORITY))];
        nextId := nextId + 1;
        i := i + 1;
      }
      BatchStorable(receivers, RECEIVER, first, i);
      SaveAllFresh(receivers, ThreadMapper.EntityList(list));
      AppendValid(receivers, ThreadMapper.EntityList(list));
      // Every row of the batch is storable, so the bulk save returns normally.
      var step := Repo.CreateReceiverThreadsWithList(receivers, list);
      receivers := step.table;
      RunEach(Ids(list), now);
      r := Returned(list);
    }

    /**
     * updateReceiverThread: a null DTO is a NullPointerException before any
     * lookup, a null id fails in the lookup and an unknown id is an
     * IllegalArgumentException; otherwise a task is submitted first when the
     * worker goes from not RUNNING to RUNNING, and then the repository
     * merges the input and its answer is returned.
     */
    method UpdateReceiverThread(dto: Option<ThreadDto>, now: int) returns (r: Outcome<Response<string>>)
      requires Valid()
      modifies this
      ensures Valid()
      ensures nextId == old(nextId)
      ensures dto.None? ==>
        && r == Thrown(NullPointer)
        && receivers == old(receivers) && runningReceivers == old(runningReceivers) && nextHandle == old(nextHandle)
      ensures dto.Some? && dto.value.id.None? ==>
        && r == Thrown(InvalidDataAccessApiUsage)
        && receivers == old(receivers) && runningReceivers == old(runningReceivers) && nextHandle == old(nextHandle)
      ensures dto.Some? && dto.value.id.Some? && Find(old(receivers), dto.value.id.value).None? ==>
        && r == Thrown(IllegalArgument)
        && receivers == old(receivers) && runningReceivers == old(runningReceivers) && nextHandle == old(nextHandle)
      ensures dto.Some? && dto.value.id.Some? && Find(old(receivers), dto.value.id.value).Some? ==>
        && r == Returned(Response(OK, "Receiver Thread Updated Successfully = " + IdText(dto.value.id)))
        && receivers == Repo.UpdateReceiverThread(old(receivers), dto).table
        && if Starts(dto.value.state, Find(old(receivers), dto.value.id.value).value.state)
           then runningReceivers == old(runningReceivers)[dto.value.id.value := Task(old(nextHandle), now, None)]
                && nextHandle == old(nextHandle) + 1
           else runningReceivers == old(runningReceivers) && nextHandle == old(nextHandle)
    {
      if dto.None? {
        r := Thrown(NullPointer);
        return;
      }
      var d := dto.value;
      var current := Repo.GetReceiverThreadById(receivers, d.id);
      match current
      case Thrown(e) =>
        r := Thrown(e);
      case Returned(None) =>
        r := Thrown(IllegalArgument);
      case Returned(Some(stored)) =>
        if Starts(d.state, stored.state) {
          RunReceiverThreadLifeCycle(d.id.value, now);
        }
        var step := Repo.UpdateReceiverThread(receivers, dto);
        KeysKept(receivers, step.table, nextId);
        receivers := step.table;
        r := step.result;
    }

    /**
     * updateReceiverThreadState: a null id fails in the lookup and an
     * unknown id is an IllegalArgumentException; otherwise the repository's
     * answer is ignored, a task is submitted when the worker goes from not
     * RUNNING to RUNNING, and the id is returned.
     */
    method UpdateReceiverThreadState(id: Option<Uuid>, state: Option<ThreadState>, now: int) returns (r: Outcome<Option<Uuid>>)
      requires Valid()
      modifies this
      ensures Valid()
      ensures nextId == old(nextId)
      ensures id.None? ==>
        && r == Thrown(InvalidDataAccessApiUsage)
        && receivers == old(receivers) && runningReceivers == old(runningReceivers) && nextHandle == old(nextHandle)
      ensures id.Some? && Find(old(receivers), id.value).None? ==>
        && r == Thrown(IllegalArgument)
        && receivers == old(receivers) && runningReceivers == old(runningReceivers) && nextHandle == old(nextHandle)
      ensures id.Some? && Find(old(receivers), id.value).Some? ==>
        && r == Returned(id)
        && receivers == Repo.UpdateReceiverThreadState(old(receivers), id, state).table
        && if Starts(state, Find(old(receivers), id.value).value.state)
           then runningReceivers == old(runningReceivers)[id.value := Task(old(nextHandle), now, None)]
                && nextHandle == old(nextHandle) + 1
           else runningReceivers == old(runningReceivers) && nextHandle == old(nextHandle)
    {
      var current := Repo.GetReceiverThreadById(receivers, id);
      match current
      case Thrown(e) =>
        r := Thrown(e);
      case Returned(None) =>
        r := Thrown(IllegalArgument);
      case Returned(Some(stored)) =>
        var step := Repo.UpdateReceiverThreadState(receivers, id, state);
        KeysKept(receivers, step.table, nextId);
        receivers := step.table;
        if Starts(state, stored.state) {
          RunReceiverThreadLifeCycle(id.value, now);
        }
        r := Returned(id);
    }

    /** updateReceiverThreadPriority: the repository's answer; no task is submitted or cancelled. */
    method UpdateReceiverThreadPriority(id: Option<Uuid>, priority: Option<int>) returns (r: Outcome<Response<string>>)
      requires Valid()
      modifies this
      ensures Valid()
      ensures r == Repo.UpdateReceiverThreadPriority(old(receivers), id, priority).result
      ensures receivers == Repo.UpdateReceiverThreadPriority(old(receivers), id, priority).table
      ensures runningReceivers == old(runningReceivers) && nextHandle == old(nextHandle) && nextId == old(nextId)
    {
      var step := Repo.UpdateReceiverThreadPriority(receivers, id, priority);
      KeysKept(receivers, step.table, nextId);
      receivers := step.table;
      r := step.result;
    }

    /** deleteReceiverThreadById: the repository's answer; a running task notices on its next round. */
    method DeleteReceiverThreadById(id: Option<Uuid>) returns (r: Outcome<Response<string>>)
      requires Valid()
      modifies this
      ensures Valid()
      ensures r == Repo.DeleteReceiverThreadById(old(receivers), id).result
      ensures receivers == Repo.DeleteReceiverThreadById(old(receivers), id).table
      ensures runningReceivers == old(runningReceivers) && nextHandle == old(nextHandle) && nextId == old(nextId)
    {
      var step := Repo.DeleteReceiverThreadById(receivers, id);
      KeysKept(receivers, step.table, nextId);
      receivers := step.table;
      r := step.result;
    }

    /** deleteAllReceiverThreads: the repository's answer after emptying the table. */
    method DeleteAllReceiverThreads() returns (r: Response<string>)
      requires Valid()
      modifies this
      ensures Valid()
      ensures r == Response(OK, "Receiver Threads Deleted Successfully") && receivers == []
      ensures runningReceivers == old(runningReceivers) && nextHandle == old(nextHandle) && nextId == old(nextId)
    {
      var step := Repo.DeleteAllReceiverThreads(receivers);
      receivers := step.table;
      r := step.result;
    }

    /** startReceiverThreadsLifeCycle: submit one task per RUNNING record, in table order. */
    method StartReceiverThreadsLifeCycle(now: int) returns (r: bool)
      requires Valid()
      modifies this
      ensures Valid()
      ensures r
      ensures runningReceivers == ScheduleAll(old(runningReceivers), RunningWorkerIds(old(receivers)), old(nextHandle), now)
      ensures nextHandle == old(nextHandle) + |RunningWorkerIds(old(receivers))|
      ensures receivers == old(receivers) && nextId == old(nextId)
    {
      var active := Repo.GetActiveReceiverThreads(receivers);
      RunEach(Ids(active), now);
      r := true;
    }

    /**
     * One round of a receiver task's loop: look the worker up first; an
     * absent or STOPPED record cancels the registered task, removes it and
     * ends the loop without touching the queue, and an invalid priority
     * ends the task with an exception. Otherwise, when a period has passed,
     * take the queue's head; the clock restarts only if there was one. A
     * round describes a live task: after a Crashed round the task has ended
     * although its entry stays in runningReceivers.
     */
    method Tick(id: Uuid, now: int) returns (outcome: TickOutcome)
      requires Valid() && id in runningReceivers
      modifies this, sharedQueue
      ensures Valid()
      ensures receivers == old(receivers) && nextId == old(nextId) && nextHandle == old(nextHandle)
      ensures !Check(Repo.GetReceiverThreadById(receivers, Some(id)).value).Adopt? ==>
        sharedQueue.items == old(sharedQueue.items)
      ensures Check(Repo.GetReceiverThreadById(receivers, Some(id)).value).Terminate? ==>
        outcome == Terminated && runningReceivers == old(runningReceivers) - {id}
      ensures Check(Repo.GetReceiverThreadById(receivers, Some(id)).value).Crash? ==>
        outcome == Crashed && runningReceivers == old(runningReceivers)
      ensures Check(Repo.GetReceiverThreadById(receivers, Some(id)).value).Adopt? ==>
        var due := now - old(runningReceivers[id].lastProcessTime) >= TickPeriod;
        var consumed := due && old(sharedQueue.items) != [];
        && outcome == Continues
        && sharedQueue.items == (if consumed then old(sharedQueue.items)[1..] else old(sharedQueue.items))
        && runningReceivers == old(runningReceivers)[id := Task(
             old(runningReceivers[id].handle),
             if consumed then now else old(runningReceivers[id].lastProcessTime),
             Some(Check(Repo.GetReceiverThreadById(receivers, Some(id)).value).priority))]
    {
      var task := runningReceivers[id];
      var thisThread := Repo.GetReceiverThreadById(receivers, Some(id)).value;
      match Check(thisThread)
      case Terminate =>
        runningReceivers := runningReceivers - {id};
        outcome := Terminated;
      case Crash =>
        outcome := Crashed;
      case Adopt(p) =>
        var lastProcessTime := task.lastProcessTime;
        if now - lastProcessTime >= TickPeriod {
          var data := sharedQueue.Poll();
          if data.Some? {
            lastProcessTime := now;
          }
        }
        runningReceivers := runningReceivers[id := Task(task.handle, lastProcessTime, Some(p))];
        outcome := Continues;
    }
  }

  /** Once a worker's record is deleted, the next round of any of its tasks ends the loop. */
  lemma DeletedWorkerStops(t: Table, u: Uuid)
    requires Valid(t)
    ensures Check(Repo.GetReceiverThreadById(Repo.DeleteReceiverThreadById(t, Some(u)).table, Some(u)).value) == Terminate
  {
    var after := Repo.DeleteReceiverThreadById(t, Some(u)).table;
    assert Find(after, u).None?;
  }

  /** Once a worker is set STOPPED, the next round of any of its tasks ends the loop. */
  lemma StoppedWorkerStops(t: Table, u: Uuid)
    requires Valid(t) && Find(t, u).Some?
    ensures Check(Repo.GetReceiverThreadById(Repo.UpdateReceiverThreadState(t, Some(u), Some(STOPPED)).table, Some(u)).value) == Terminate
  {
    var after := Repo.UpdateReceiverThreadState(t, Some(u), Some(STOPPED)).table;
    assert Find(after, u).value.state == Some(STOPPED);
  }
}
