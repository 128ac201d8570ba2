/**
 * The pieces both lifecycle controllers share: the task a registry entry
 * stands for, the decision each loop iteration takes from the worker's
 * persisted record, the batch of workers createXThreadsWithAmount builds,
 * and the registry after a run of scheduling calls.
 */
module Lifecycle {
  import opened Wrappers
  import opened Threads
  import opened Store
  import ThreadMapper
  import opened ThreadQueries

  /** The loops act at most once per this many milliseconds. */
  const TickPeriod: int := 1000

  /**
   * The Future stored in the registry, with the loop's local state:
   * a fresh handle per submission, lastProcessTime, and the priority the
   * loop last gave its thread (None until the first live iteration).
   */
  datatype Task = Task(handle: nat, lastProcessTime: int, priority: Option<int>)

  /** How one iteration of the loop ends. */
  datatype TickOutcome =
    | Continues   // the loop goes round again
    | Terminated  // the registry entry was cancelled and removed; the loop broke
    | Crashed     // an unchecked exception left the task; the registry keeps its handle

  /** What the liveness check makes of the record it fetched. */
  datatype Verdict = Terminate | Adopt(priority: int) | Crash

  /**
   * The liveness check: an absent or STOPPED record ends the loop; otherwise
   * the thread takes the record's priority, which Thread.setPriority rejects
   * (IllegalArgumentException) outside [MIN_PRIORITY, MAX_PRIORITY] and which
   * throws NullPointerException when unboxed from null.
   */
  function Check(record: Option<ThreadDto>): (v: Verdict)
    ensures v.Terminate? <==> record.None? || record.value.state == Some(STOPPED)
    ensures v.Adopt? <==> && !v.Terminate?
                          && record.value.priority.Some?
                          && MIN_PRIORITY <= record.value.priority.value <= MAX_PRIORITY
    ensures v.Adopt? ==> record.value.priority == Some(v.priority)
  {
    match record
    case None => Terminate
    case Some(d) =>
      if d.state == Some(STOPPED) then Terminate
      else if d.priority.None? then Crash
      else if d.priority.value < MIN_PRIORITY || MAX_PRIORITY < d.priority.value then Crash
      else Adopt(d.priority.value)
  }

  /** The rule of every update path: schedule a task iff the requested state is RUNNING and the stored one is not. */
  predicate Starts(requested: Option<ThreadState>, stored: Option<ThreadState>) {
    requested == Some(RUNNING) && stored != Some(RUNNING)
  }

  /** The record createXThreadsWithAmount builds for one fresh id. */
  function Worker(kind: ThreadType, id: Uuid): ThreadDto {
    ThreadDto(Some(id), Some(kind), Some(RUNNING), Some(NORM_PRIORITY))
  }

  /** The list createXThreadsWithAmount builds: n workers with consecutive fresh ids. */
  function Batch(kind: ThreadType, first: Uuid, n: nat): (b: seq<ThreadDto>)
    ensures |b| == n
    ensures forall i | 0 <= i < n :: b[i] == Worker(kind, first + i)
  {
    if n == 0 then [] else Batch(kind, first, n - 1) + [Worker(kind, first + n - 1)]
  }

  /** Every element carries an id. */
  predicate HasIds(ds: seq<ThreadDto>) {
    forall k | 0 <= k < |ds| :: ds[k].id.Some?
  }

  /** The ids of a list of records, in order. */
  function Ids(ds: seq<ThreadDto>): (ids: seq<Uuid>)
    requires HasIds(ds)
    ensures |ids| == |ds|
    ensures forall k | 0 <= k < |ds| :: ds[k].id == Some(ids[k])
  {
    seq(|ds|, k requires 0 <= k < |ds| => ds[k].id.value)
  }

  /** A batch above every stored key is storable in one saveAll, which appends it. */
  lemma BatchStorable(t: Table, kind: ThreadType, first: Uuid, n: nat)
    requires IdsBelow(t, first)
    ensures HasIds(Batch(kind, first, n))
    ensures FreshKeys(t, ThreadMapper.EntityList(Batch(kind, first, n)))
    ensures forall k | 0 <= k < n :: ThreadMapper.EntityList(Batch(kind, first, n))[k].id.Some? && Complete(ThreadMapper.EntityList(Batch(kind, first, n))[k])
    ensures IdsBelow(t + ThreadMapper.EntityList(Batch(kind, first, n)), first + n)
  {
    var es := ThreadMapper.EntityList(Batch(kind, first, n));
    assert forall k | 0 <= k < n :: es[k].id == Some(first + k);
  }

  /** The registry after runXThreadLifeCycle for each id in turn, handles numbered from handle. */
  function ScheduleAll(registry: map<Uuid, Task>, ids: seq<Uuid>, handle: nat, now: int): map<Uuid, Task>
    decreases |ids|
  {
    if ids == [] then registry
    else ScheduleAll(registry, ids[..|ids| - 1], handle, now)[ids[|ids| - 1] := Task(handle + |ids| - 1, now, None)]
  }

  /**
   * Scheduling a list registers exactly its ids, each with a new handle
   * from the range used and a loop that starts now, and leaves every other
   * entry alone.
   */
  lemma {:induction false} ScheduleAllEffect(registry: map<Uuid, Task>, ids: seq<Uuid>, handle: nat, now: int)
    ensures forall u :: u in ScheduleAll(registry, ids, handle, now) <==> u in registry || u in ids
    ensures forall u | u in ids ::
      && handle <= ScheduleAll(registry, ids, handle, now)[u].handle < handle + |ids|
      && ScheduleAll(registry, ids, handle, now)[u].lastProcessTime == now
      && ScheduleAll(registry, ids, handle, now)[u].priority.None?
    ensures forall u | u in registry && u !in ids :: ScheduleAll(registry, ids, handle, now)[u] == registry[u]
    decreases |ids|
  {
    if ids != [] {
      var front := ids[..|ids| - 1];
      ScheduleAllEffect(registry, front, handle, now);
      assert forall u :: u in ids <==> u in front || u == ids[|ids| - 1] by {
        assert ids == front + [ids[|ids| - 1]];
      }
    }
  }

  /** The ids of a table's RUNNING records are exactly the ids stored with state RUNNING. */
  lemma RunningIds(t: Table)
    requires Valid(t)
    ensures HasIds(Select(ThreadMapper.DtoList(t), ByState(RUNNING)))
    ensures forall u :: u in Ids(Select(ThreadMapper.DtoList(t), ByState(RUNNING))) <==>
      Find(t, u).Some? && Find(t, u).value.state == Some(RUNNING)
  {
    var all := ThreadMapper.DtoList(t);
    var active := Select(all, ByState(RUNNING));
    forall k | 0 <= k < |active| ensures active[k].id.Some? {
      assert active[k] in all;
    }
    var ids := Ids(active);
    forall u ensures u in ids <==> Find(t, u).Some? && Find(t, u).value.state == Some(RUNNING) {
      if u in ids {
        var k :| 0 <= k < |ids| && ids[k] == u;
        assert active[k] in all;
        var i :| 0 <= i < |all| && all[i] == active[k];
        FindRow(t, i);
      }
      if Find(t, u).Some? && Find(t, u).value.state == Some(RUNNING) {
        var e := Find(t, u).value;
        var i :| 0 <= i < |t| && t[i] == e;
        assert all[i] in all;
        var k :| 0 <= k < |active| && active[k] == all[i];
        assert ids[k] == u;
      }
    }
  }

  /** The ids startXThreadsLifeCycle schedules: those of the active list, in table order. */
  function RunningWorkerIds(t: Table): (ids: seq<Uuid>)
    requires Valid(t)
    ensures forall u :: u in ids <==> Find(t, u).Some? && Find(t, u).value.state == Some(RUNNING)
  {
    RunningIds(t);
    Ids(Select(ThreadMapper.DtoList(t), ByState(RUNNING)))
  }
}
