/**
 * ReceiverThreadRepository: the receiver table's operations. Unlike the
 * sender side, most failures are answered with a 400 ResponseEntity whose
 * body says what went wrong; the rest propagate unchanged.
 */
module ReceiverThreadRepository {
  import opened Wrappers
  import opened Threads
  import opened Store
  import ThreadMapper
  import opened ThreadQueries

  /**
   * createReceiverThread: a null DTO reaches save(null), whose translated
   * exception the IllegalArgumentException handler does not catch; a row the
   * database rejects propagates; otherwise 200 with the input.
   */
  function CreateReceiverThread(t: Table, dto: Option<ThreadDto>): (s: Step<Outcome<Response<Option<ThreadDto>>>>)
    requires Valid(t)
    ensures Valid(s.table)
    ensures dto.None? ==> s == Step(Thrown(InvalidDataAccessApiUsage), t)
    ensures dto.Some? && !Complete(ThreadMapper.Entity(dto.value)) ==> s == Step(Thrown(StorageFailure), t)
    ensures dto.Some? && Complete(ThreadMapper.Entity(dto.value)) ==>
      && s.result == Returned(Response(OK, dto))
      && Find(s.table, dto.value.id.value) == Some(ThreadMapper.Entity(dto.value))
      && (forall k | k != dto.value.id.value :: Find(s.table, k) == Find(t, k))
  {
    match ThreadMapper.ToEntity(dto)
    case None => Step(Thrown(InvalidDataAccessApiUsage), t)
    case Some(e) =>
      if Complete(e) then
        SaveValid(t, e);
        Step(Returned(Response(OK, dto)), Save(t, e))
      else
        Step(Thrown(StorageFailure), t)
  }

  /** createReceiverThreadsWithList: one saveAll; a rejected row rolls it back and propagates. */
  function CreateReceiverThreadsWithList(t: Table, dtos: seq<ThreadDto>): (s: Step<Outcome<bool>>)
    requires Valid(t)
    ensures Valid(s.table)
    ensures s.result.Returned? <==> forall k | 0 <= k < |dtos| :: Complete(ThreadMapper.Entity(dtos[k]))
    ensures s.result.Returned? ==> s.result.value && s.table == SaveAll(t, ThreadMapper.EntityList(dtos))
    ensures s.result.Thrown? ==> s.result.error == StorageFailure && s.table == t
  {
    var entities := ThreadMapper.EntityList(dtos);
    if forall k | 0 <= k < |entities| :: Complete(entities[k]) then
      SaveAllValid(t, entities);
      Step(Returned(true), SaveAll(t, entities))
    else
      Step(Thrown(StorageFailure), t)
  }

  /** getReceiverThreadById: findById's translated exception for a null id is not caught. */
  function GetReceiverThreadById(t: Table, id: Option<Uuid>): (r: Outcome<Option<ThreadDto>>)
    ensures id.None? ==> r == Thrown(InvalidDataAccessApiUsage)
    ensures id.Some? ==> r.Returned? && (r.value.None? <==> forall i | 0 <= i < |t| :: t[i].id != id)
    ensures id.Some? && r.value.Some? ==> r.value.value.id == id && r.value.value in GetAllReceiverThreads(t)
    ensures id.Some? ==> r.value == ThreadMapper.ToDto(Find(t, id.value))
  {
    match id
    case None => Thrown(InvalidDataAccessApiUsage)
    case Some(k) => Returned(ThreadMapper.ToDto(Find(t, k)))
  }

  /** getAllReceiverThreads: findAll mapped to DTOs. */
  function GetAllReceiverThreads(t: Table): (r: seq<ThreadDto>)
  {
    ThreadMapper.DtoList(t)
  }

  /** getActiveReceiverThreads: the RUNNING records, in table order. */
  function GetActiveReceiverThreads(t: Table): (r: seq<ThreadDto>)
    ensures forall d :: d in r <==> d in GetAllReceiverThreads(t) && d.state == Some(RUNNING)
  {
    Select(GetAllReceiverThreads(t), ByState(RUNNING))
  }

  /** getPassiveReceiverThreads: the STOPPED records, in table order. */
  function GetPassiveReceiverThreads(t: Table): (r: seq<ThreadDto>)
    ensures forall d :: d in r <==> d in GetAllReceiverThreads(t) && d.state == Some(STOPPED)
  {
    Select(GetAllReceiverThreads(t), ByState(STOPPED))
  }

  /** The active and the passive lists together are the whole table, each record once. */
  lemma ActivePassivePartition(t: Table)
    requires Valid(t)
    ensures |GetActiveReceiverThreads(t)| + |GetPassiveReceiverThreads(t)| == |t|
    ensures multiset(GetActiveReceiverThreads(t)) + multiset(GetPassiveReceiverThreads(t)) == multiset(GetAllReceiverThreads(t))
  {
    var all := GetAllReceiverThreads(t);
    SelectIdentity(all);
    StatePartition(all, None);
  }

  /**
   * deleteReceiverThreadById: only a null id fails, with deleteById's
   * translated exception, which the IllegalArgumentException handler does
   * not catch.
   */
  function DeleteReceiverThreadById(t: Table, id: Option<Uuid>): (s: Step<Outcome<Response<string>>>)
    requires Valid(t)
    ensures Valid(s.table)
    ensures id.None? ==> s == Step(Thrown(InvalidDataAccessApiUsage), t)
    ensures id.Some? ==> s.result == Returned(Response(OK, "Receiver Thread Deleted Successfully : " + IdText(id)))
    ensures id.Some? ==> Find(s.table, id.value).None? && forall k | k != id.value :: Find(s.table, k) == Find(t, k)
  {
    match id
    case None => Step(Thrown(InvalidDataAccessApiUsage), t)
    case Some(k) =>
      DeleteValid(t, k);
      Step(Returned(Response(OK, "Receiver Thread Deleted Successfully : " + IdText(id))), DeleteById(t, k))
  }

  /** deleteAllReceiverThreads: the table is emptied. */
  function DeleteAllReceiverThreads(t: Table): (s: Step<Response<string>>)
    ensures s == Step(Response(OK, "Receiver Threads Deleted Successfully"), [])
  {
    Step(Response(OK, "Receiver Threads Deleted Successfully"), [])
  }

  /**
   * updateReceiverThread: an unknown id is answered 400; a null DTO's
   * NullPointerException and the exception findById throws for a null id
   * are rethrown.
   */
  function UpdateReceiverThread(t: Table, dto: Option<ThreadDto>): (s: Step<Outcome<Response<string>>>)
    requires Valid(t)
    ensures Valid(s.table)
    ensures dto.None? ==> s == Step(Thrown(NullPointer), t)
    ensures dto.Some? && dto.value.id.None? ==> s == Step(Thrown(InvalidDataAccessApiUsage), t)
    ensures dto.Some? && dto.value.id.Some? && Find(t, dto.value.id.value).None? ==>
      s == Step(Returned(Response(BAD_REQUEST, "Receiver Thread Not Found")), t)
    ensures dto.Some? && dto.value.id.Some? && Find(t, dto.value.id.value).Some? ==>
      && s.result == Returned(Response(OK, "Receiver Thread Updated Successfully = " + IdText(dto.value.id)))
      && Find(s.table, dto.value.id.value) == Some(Merge(Find(t, dto.value.id.value).value, dto.value))
      && (forall k | k != dto.value.id.value :: Find(s.table, k) == Find(t, k))
      && |s.table| == |t|
  {
    match dto
    case None => Step(Thrown(NullPointer), t)
    case Some(d) =>
      match d.id
      case None => Step(Thrown(InvalidDataAccessApiUsage), t)
      case Some(k) =>
        match Find(t, k)
        case None => Step(Returned(Response(BAD_REQUEST, "Receiver Thread Not Found")), t)
        case Some(stored) =>
          var updated := Merge(stored, d);
          SaveValid(t, updated);
          Step(Returned(Response(OK, "Receiver Thread Updated Successfully = " + IdText(d.id))), Save(t, updated))
  }

  /**
   * updateReceiverThreadPriority: a null priority is answered "Priority
   * Can't Be Null", an unknown id "Receiver Thread Not Found"; a null id is
   * findById's translated exception, which neither handler catches.
   */
  function UpdateReceiverThreadPriority(t: Table, id: Option<Uuid>, priority: Option<int>): (s: Step<Outcome<Response<string>>>)
    requires Valid(t)
    ensures Valid(s.table)
    ensures priority.None? ==> s == Step(Returned(Response(BAD_REQUEST, "Priority Can't Be Null")), t)
    ensures priority.Some? && id.None? ==> s == Step(Thrown(InvalidDataAccessApiUsage), t)
    ensures priority.Some? && id.Some? && Find(t, id.value).None? ==> s == Step(Returned(Response(BAD_REQUEST, "Receiver Thread Not Found")), t)
    ensures priority.Some? && id.Some? && Find(t, id.value).Some? ==>
      && s.result == Returned(Response(OK, "Receiver Thread Updated Successfully = " + IdText(id)))
      && Find(s.table, id.value) == Some(Find(t, id.value).value.(priority := priority))
      && (forall k | k != id.value :: Find(s.table, k) == Find(t, k))
      && |s.table| == |t|
  {
    if priority.None? then Step(Returned(Response(BAD_REQUEST, "Priority Can't Be Null")), t)
    else if id.None? then Step(Thrown(InvalidDataAccessApiUsage), t)
    else
      match Find(t, id.value)
      case None => Step(Returned(Response(BAD_REQUEST, "Receiver Thread Not Found")), t)
      case Some(stored) =>
        var updated := if stored.priority != priority then stored.(priority := priority) else stored;
        SaveValid(t, updated);
        Step(Returned(Response(OK, "Receiver Thread Updated Successfully = " + IdText(id))), Save(t, updated))
  }

  /**
   * updateReceiverThreadState: a null state is answered "Receiver Thread
   * State Can't Be Null", an unknown id "Receiver Thread Not Found"; a null
   * id is findById's translated exception, which neither handler catches.
   */
  function UpdateReceiverThreadState(t: Table, id: Option<Uuid>, state: Option<ThreadState>): (s: Step<Outcome<Response<string>>>)
    requires Valid(t)
    ensures Valid(s.table)
    ensures state.None? ==> s == Step(Returned(Response(BAD_REQUEST, "Receiver Thread State Can't Be Null")), t)
    ensures state.Some? && id.None? ==> s == Step(Thrown(InvalidDataAccessApiUsage), t)
    ensures state.Some? && id.Some? && Find(t, id.value).None? ==> s == Step(Returned(Response(BAD_REQUEST, "Receiver Thread Not Found")), t)
    ensures state.Some? && id.Some? && Find(t, id.value).Some? ==>
      && s.result == Returned(Response(OK, "Receiver Thread Updated Successfully = " + IdText(id)))
      && Find(s.table, id.value) == Some(Find(t, id.value).value.(state := state))
      && (forall k | k != id.value :: Find(s.table, k) == Find(t, k))
      && |s.table| == |t|
  {
    if state.None? then Step(Returned(Response(BAD_REQUEST, "Receiver Thread State Can't Be Null")), t)
    else if id.None? then Step(Thrown(InvalidDataAccessApiUsage), t)
    else
      match Find(t, id.value)
      case None => Step(Returned(Response(BAD_REQUEST, "Receiver Thread Not Found")), t)
      case Some(stored) =>
        var updated := if stored.state != state then stored.(state := state) else stored;
        SaveValid(t, updated);
        Step(Returned(Response(OK, "Receiver Thread Updated Successfully = " + IdText(id))), Save(t, updated))
  }
}
