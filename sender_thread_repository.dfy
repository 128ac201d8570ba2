/**
 * SenderThreadRepository: the sender table's operations. Failures are
 * reported by throwing ThreadManagementException or ThreadNotFoundException.
 */
module SenderThreadRepository {
  import opened Wrappers
  import opened Threads
  import opened Store
  import ThreadMapper
  import opened ThreadQueries

  /** createSenderThreadsWithList: one saveAll; a row the database rejects becomes a ThreadManagementException. */
  function CreateSenderThreadsWithList(t: Table, dtos: seq<ThreadDto>): (s: Step<Outcome<bool>>)
    requires Valid(t)
    ensures Valid(s.table)
    ensures s.result.Returned? <==> forall k | 0 <= k < |dtos| :: Complete(ThreadMapper.Entity(dtos[k]))
    ensures s.result.Returned? ==> s.result.value && s.table == SaveAll(t, ThreadMapper.EntityList(dtos))
    ensures s.result.Thrown? ==> s.result.error == ManagementWrapping && s.table == t
  {
    var entities := ThreadMapper.EntityList(dtos);
    if forall k | 0 <= k < |entities| :: Complete(entities[k]) then
      SaveAllValid(t, entities);
      Step(Returned(true), SaveAll(t, entities))
    else
      Step(Thrown(ManagementWrapping), t)
  }

  /**
   * getSenderThreadById: an unknown id gives an empty Optional. A null id is
   * rejected by findById with an exception the repository proxy translates,
   * so it is the general handler that wraps it in a ThreadManagementException.
   */
  function GetSenderThreadById(t: Table, id: Option<Uuid>): (r: Outcome<Option<ThreadDto>>)
    ensures id.None? ==> r == Thrown(ManagementWrapping)
    ensures id.Some? ==> r.Returned? && (r.value.None? <==> forall i | 0 <= i < |t| :: t[i].id != id)
    ensures id.Some? && r.value.Some? ==> r.value.value.id == id && r.value.value in GetAllSenderThreads(t)
    ensures id.Some? ==> r.value == ThreadMapper.ToDto(Find(t, id.value))
  {
    match id
    case None => Thrown(ManagementWrapping)
    case Some(k) => Returned(ThreadMapper.ToDto(Find(t, k)))
  }

  /** getAllSenderThreads: findAll mapped to DTOs. */
  function GetAllSenderThreads(t: Table): (r: seq<ThreadDto>)
  {
    ThreadMapper.DtoList(t)
  }

  /** getActiveSenderThreads: the RUNNING records, in table order. */
  function GetActiveSenderThreads(t: Table): (r: seq<ThreadDto>)
    ensures forall d :: d in r <==> d in GetAllSenderThreads(t) && d.state == Some(RUNNING)
  {
    Select(GetAllSenderThreads(t), ByState(RUNNING))
  }

  /** getPassiveSenderThreads: the STOPPED records, in table order. */
  function GetPassiveSenderThreads(t: Table): (r: seq<ThreadDto>)
    ensures forall d :: d in r <==> d in GetAllSenderThreads(t) && d.state == Some(STOPPED)
  {
    Select(GetAllSenderThreads(t), ByState(STOPPED))
  }

  /** The active and the passive lists together are the whole table, each record once. */
  lemma ActivePassivePartition(t: Table)
    requires Valid(t)
    ensures |GetActiveSenderThreads(t)| + |GetPassiveSenderThreads(t)| == |t|
    ensures multiset(GetActiveSenderThreads(t)) + multiset(GetPassiveSenderThreads(t)) == multiset(GetAllSenderThreads(t))
  {
    var all := GetAllSenderThreads(t);
    assert Select(all, ByNothing) == all by {
      SelectIdentity(all);
    }
    StatePartition(all, None);
  }

  /** deleteSenderThreadById: a null id (the only failure of deleteById) becomes ThreadNotFoundException. */
  function DeleteSenderThreadById(t: Table, id: Option<Uuid>): (s: Step<Outcome<Option<Uuid>>>)
    requires Valid(t)
    ensures Valid(s.table)
    ensures id.None? ==> s == Step(Thrown(NotFound(None)), t)
    ensures id.Some? ==> s.result == Returned(id) && Find(s.table, id.value).None?
    ensures id.Some? ==> forall k | k != id.value :: Find(s.table, k) == Find(t, k)
  {
    match id
    case None => Step(Thrown(NotFound(None)), t)
    case Some(k) =>
      DeleteValid(t, k);
      Step(Returned(id), DeleteById(t, k))
  }

  /** deleteAllSenderThreads: the table is emptied. */
  function DeleteAllSenderThreads(t: Table): (s: Step<Outcome<bool>>)
    ensures s.result == Returned(true) && s.table == []
  {
    Step(Returned(true), [])
  }

  /**
   * updateSenderThread: non-null input fields overwrite the stored record
   * and the input is returned. A null DTO (its NullPointerException) and a
   * null id both reach the general handler, which wraps them.
   */
  function UpdateSenderThread(t: Table, dto: Option<ThreadDto>): (s: Step<Outcome<ThreadDto>>)
    requires Valid(t)
    ensures Valid(s.table)
    ensures dto.None? ==> s == Step(Thrown(ManagementWrapping), t)
    ensures dto.Some? && dto.value.id.None? ==> s == Step(Thrown(ManagementWrapping), t)
    ensures dto.Some? && dto.value.id.Some? && Find(t, dto.value.id.value).None? ==> s == Step(Thrown(NotFound(dto.value.id)), t)
    ensures dto.Some? && dto.value.id.Some? && Find(t, dto.value.id.value).Some? ==>
      && s.result == Returned(dto.value)
      && Find(s.table, dto.value.id.value) == Some(Merge(Find(t, dto.value.id.value).value, dto.value))
      && (forall k | k != dto.value.id.value :: Find(s.table, k) == Find(t, k))
      && |s.table| == |t|
  {
    match dto
    case None => Step(Thrown(ManagementWrapping), t)
    case Some(d) =>
      match d.id
      case None => Step(Thrown(ManagementWrapping), t)
      case Some(k) =>
        match Find(t, k)
        case None => Step(Thrown(NotFound(d.id)), t)
        case Some(stored) =>
          var updated := Merge(stored, d);
          SaveValid(t, updated);
          Step(Returned(d), Save(t, updated))
  }

  /**
   * updateSenderThreadPriority: a null priority gives "Priority Can't Be
   * Null"; a null id is findById's translated exception, which neither
   * handler catches; an unknown id gives ThreadNotFoundException.
   */
  function UpdateSenderThreadPriority(t: Table, id: Option<Uuid>, priority: Option<int>): (s: Step<Outcome<Option<Uuid>>>)
    requires Valid(t)
    ensures Valid(s.table)
    ensures priority.None? ==> s == Step(Thrown(Management("Priority Can't Be Null")), t)
    ensures priority.Some? && id.None? ==> s == Step(Thrown(InvalidDataAccessApiUsage), t)
    ensures priority.Some? && id.Some? && Find(t, id.value).None? ==> s == Step(Thrown(NotFound(id)), t)
    ensures priority.Some? && id.Some? && Find(t, id.value).Some? ==>
      && s.result == Returned(id)
      && Find(s.table, id.value) == Some(Find(t, id.value).value.(priority := priority))
      && (forall k | k != id.value :: Find(s.table, k) == Find(t, k))
      && |s.table| == |t|
  {
    if priority.None? then Step(Thrown(Management("Priority Can't Be Null")), t)
    else if id.None? then Step(Thrown(InvalidDataAccessApiUsage), t)
    else
      match Find(t, id.value)
      case None => Step(Thrown(NotFound(id)), t)
      case Some(stored) =>
        var updated := if stored.priority != priority then stored.(priority := priority) else stored;
        SaveValid(t, updated);
        Step(Returned(id), Save(t, updated))
  }

  /**
   * updateSenderThreadState: a null state gives "Thread State Can't Be
   * Null"; a null id is findById's translated exception, which neither
   * handler catches; an unknown id gives ThreadNotFoundException.
   */
  function UpdateSenderThreadState(t: Table, id: Option<Uuid>, state: Option<ThreadState>): (s: Step<Outcome<Option<Uuid>>>)
    requires Valid(t)
    ensures Valid(s.table)
    ensures state.None? ==> s == Step(Thrown(Management("Thread State Can't Be Null")), t)
    ensures state.Some? && id.None? ==> s == Step(Thrown(InvalidDataAccessApiUsage), t)
    ensures state.Some? && id.Some? && Find(t, id.value).None? ==> s == Step(Thrown(NotFound(id)), t)
    ensures state.Some? && id.Some? && Find(t, id.value).Some? ==>
      && s.result == Returned(id)
      && Find(s.table, id.value) == Some(Find(t, id.value).value.(state := state))
      && (forall k | k != id.value :: Find(s.table, k) == Find(t, k))
      && |s.table| == |t|
  {
    if state.None? then Step(Thrown(Management("Thread State Can't Be Null")), t)
    else if id.None? then Step(Thrown(InvalidDataAccessApiUsage), t)
    else
      match Find(t, id.value)
      case None => Step(Thrown(NotFound(id)), t)
      case Some(stored) =>
        var updated := if stored.state != state then stored.(state := state) else stored;
        SaveValid(t, updated);
        Step(Returned(id), Save(t, updated))
  }
}
