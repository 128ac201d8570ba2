/**
 * ThreadRepository: the combined thread table, where each row's type says
 * whether it is a sender or a receiver. Queries chain a type filter and a
 * state filter over findAll's list.
 */
module ThreadRepository {
  import opened Wrappers
  import opened Threads
  import opened Store
  import ThreadMapper
  import opened ThreadQueries

  /**
   * createThread: a null DTO reaches save(null), whose translated exception
   * the IllegalArgumentException handler does not catch; a row the database
   * rejects propagates.
   */
  function CreateThread(t: Table, dto: Option<ThreadDto>): (s: Step<Outcome<Response<Option<ThreadDto>>>>)
    requires Valid(t)
    ensures Valid(s.table)
    ensures dto.None? ==> s == Step(Thrown(InvalidDataAccessApiUsage), t)
    ensures dto.Some? && !Complete(ThreadMapper.Entity(dto.value)) ==> s == Step(Thrown(StorageFailure), t)
    ensures dto.Some? && Complete(ThreadMapper.Entity(dto.value)) ==>
      && s.result == Returned(Response(OK, dto))
      && Find(s.table, dto.value.id.value) == Some(ThreadMapper.Entity(dto.value))
      && (forall k | k != dto.value.id.value :: Find(s.table, k) == Find(t, k))
  {
    match ThreadMapper.ToEntity(dto)
    case None => Step(Thrown(InvalidDataAccessApiUsage), t)
    case Some(e) =>
      if Complete(e) then
        SaveValid(t, e);
        Step(Returned(Response(OK, dto)), Save(t, e))
      else
        Step(Thrown(StorageFailure), t)
  }

  /** createSenderReceiverThreadsWithAmount: one saveAll; a rejected row rolls it back and propagates. */
  function CreateSenderReceiverThreadsWithAmount(t: Table, dtos: seq<ThreadDto>): (s: Step<Outcome<bool>>)
    requires Valid(t)
    ensures Valid(s.table)
    ensures s.result.Returned? <==> forall k | 0 <= k < |dtos| :: Complete(ThreadMapper.Entity(dtos[k]))
    ensures s.result.Returned? ==> s.result.value && s.table == SaveAll(t, ThreadMapper.EntityList(dtos))
    ensures s.result.Thrown? ==> s.result.error == StorageFailure && s.table == t
  {
    var entities := ThreadMapper.EntityList(dtos);
    if forall k | 0 <= k < |entities| :: Complete(entities[k]) then
      SaveAllValid(t, entities);
      Step(Returned(true), SaveAll(t, entities))
    else
      Step(Thrown(StorageFailure), t)
  }

  /** getThreadById: a missing record is a RuntimeException, a null id findById's translated exception. */
  function GetThreadById(t: Table, id: Option<Uuid>): (r: Outcome<ThreadDto>)
    ensures id.None? ==> r == Thrown(InvalidDataAccessApiUsage)
    ensures id.Some? ==> (r.Thrown? <==> forall i | 0 <= i < |t| :: t[i].id != id)
    ensures r.Thrown? && id.Some? ==> r.error == Runtime("Thread not found.")
    ensures r.Returned? ==> r.value.id == id && r.value in GetAllThreads(t).body
  {
    match id
    case None => Thrown(InvalidDataAccessApiUsage)
    case Some(k) =>
      match Find(t, k)
      case None => Thrown(Runtime("Thread not found."))
      case Some(e) => Returned(ThreadMapper.Dto(e))
  }

  /** isThreadAlive: findById as an Optional; empty exactly when there is no such row. */
  function IsThreadAlive(t: Table, id: Option<Uuid>): (r: Outcome<Option<ThreadDto>>)
    ensures id.None? ==> r == Thrown(InvalidDataAccessApiUsage)
    ensures id.Some? ==> r.Returned? && (r.value.None? <==> forall i | 0 <= i < |t| :: t[i].id != id)
    ensures r.Returned? && r.value.Some? ==> GetThreadById(t, id) == Returned(r.value.value)
  {
    match id
    case None => Thrown(InvalidDataAccessApiUsage)
    case Some(k) => Returned(ThreadMapper.ToDto(Find(t, k)))
  }

  /** getAllThreads: findAll mapped to DTOs, answered 200. */
  function GetAllThreads(t: Table): (r: Response<seq<ThreadDto>>)
    ensures r.status == OK && |r.body| == |t|
    ensures forall i | 0 <= i < |t| :: r.body[i] == ThreadMapper.Dto(t[i])
  {
    Response(OK, ThreadMapper.DtoList(t))
  }

  /** The records of one type, in table order. */
  function OfType(t: Table, kind: ThreadType): (r: seq<ThreadDto>)
    ensures forall d :: d in r <==> d in GetAllThreads(t).body && d.threadType == Some(kind)
  {
    Select(GetAllThreads(t).body, ByType(kind))
  }

  /** The records of one type in one state: the type filter followed by the state filter. */
  function OfTypeInState(t: Table, kind: ThreadType, state: ThreadState): (r: seq<ThreadDto>)
    ensures forall d :: d in r <==> d in GetAllThreads(t).body && d.threadType == Some(kind) && d.state == Some(state)
  {
    SelectChained(GetAllThreads(t).body, kind, state);
    Select(OfType(t, kind), ByState(state))
  }

  /** getAllSenderThreads. */
  function GetAllSenderThreads(t: Table): (r: seq<ThreadDto>)
    ensures forall d :: d in r <==> d in GetAllThreads(t).body && d.threadType == Some(SENDER)
  {
    OfType(t, SENDER)
  }

  /** getActiveSenderThreads. */
  function GetActiveSenderThreads(t: Table): (r: seq<ThreadDto>)
    ensures forall d :: d in r <==> d in GetAllSenderThreads(t) && d.state == Some(RUNNING)
  {
    OfTypeInState(t, SENDER, RUNNING)
  }

  /** getPassiveSenderThreads. */
  function GetPassiveSenderThreads(t: Table): (r: seq<ThreadDto>)
    ensures forall d :: d in r <==> d in GetAllSenderThreads(t) && d.state == Some(STOPPED)
  {
    OfTypeInState(t, SENDER, STOPPED)
  }

  /** getAllReceiverThreads. */
  function GetAllReceiverThreads(t: Table): (r: seq<ThreadDto>)
    ensures forall d :: d in r <==> d in GetAllThreads(t).body && d.threadType == Some(RECEIVER)
  {
    OfType(t, RECEIVER)
  }

  /** getActiveReceiverThreads. */
  function GetActiveReceiverThreads(t: Table): (r: seq<ThreadDto>)
    ensures forall d :: d in r <==> d in GetAllReceiverThreads(t) && d.state == Some(RUNNING)
  {
    OfTypeInState(t, RECEIVER, RUNNING)
  }

  /** getPassiveReceiverThreads. */
  function GetPassiveReceiverThreads(t: Table): (r: seq<ThreadDto>)
    ensures forall d :: d in r <==> d in GetAllReceiverThreads(t) && d.state == Some(STOPPED)
  {
    OfTypeInState(t, RECEIVER, STOPPED)
  }

  /** Within one type, the active and passive lists split that type's records, each once. */
  lemma StatesSplitType(t: Table, kind: ThreadType)
    requires Valid(t)
    ensures |OfTypeInState(t, kind, RUNNING)| + |OfTypeInState(t, kind, STOPPED)| == |OfType(t, kind)|
    ensures multiset(OfTypeInState(t, kind, RUNNING)) + multiset(OfTypeInState(t, kind, STOPPED)) == multiset(OfType(t, kind))
  {
    var all := GetAllThreads(t).body;
    SelectChained(all, kind, RUNNING);
    SelectChained(all, kind, STOPPED);
    StatePartition(all, Some(kind));
  }

  /** The sender and receiver lists split the table, each record once. */
  lemma {:induction false} TypesSplitTable(ds: seq<ThreadDto>)
    requires forall k | 0 <= k < |ds| :: ds[k].threadType.Some?
    ensures |Select(ds, ByType(SENDER))| + |Select(ds, ByType(RECEIVER))| == |ds|
  {
    if ds != [] {
      var rest := ds[1..];
      assert forall k | 0 <= k < |rest| :: rest[k].threadType.Some? by {
        forall k | 0 <= k < |rest| ensures rest[k].threadType.Some? {
          assert rest[k] == ds[k + 1];
        }
      }
      TypesSplitTable(rest);
      match ds[0].threadType
      case Some(SENDER) =>
        assert Select(ds, ByType(SENDER)) == [ds[0]] + Select(rest, ByType(SENDER));
        assert Select(ds, ByType(RECEIVER)) == Select(rest, ByType(RECEIVER));
      case Some(RECEIVER) =>
        assert Select(ds, ByType(SENDER)) == Select(rest, ByType(SENDER));
        assert Select(ds, ByType(RECEIVER)) == [ds[0]] + Select(rest, ByType(RECEIVER));
    }
  }

  /** Every record of a valid table is listed as a sender or as a receiver. */
  lemma SendersAndReceiversCoverTable(t: Table)
    requires Valid(t)
    ensures |GetAllSenderThreads(t)| + |GetAllReceiverThreads(t)| == |t|
  {
    TypesSplitTable(GetAllThreads(t).body);
  }

  /**
   * deleteThreadById: only a null id fails, with deleteById's translated
   * exception, which the IllegalArgumentException handler does not catch.
   */
  function DeleteThreadById(t: Table, id: Option<Uuid>): (s: Step<Outcome<Response<string>>>)
    requires Valid(t)
    ensures Valid(s.table)
    ensures id.None? ==> s == Step(Thrown(InvalidDataAccessApiUsage), t)
    ensures id.Some? ==> s.result == Returned(Response(OK, "Thread Deleted Successfully : " + IdText(id)))
    ensures id.Some? ==> Find(s.table, id.value).None? && forall k | k != id.value :: Find(s.table, k) == Find(t, k)
  {
    match id
    case None => Step(Thrown(InvalidDataAccessApiUsage), t)
    case Some(k) =>
      DeleteValid(t, k);
      Step(Returned(Response(OK, "Thread Deleted Successfully : " + IdText(id))), DeleteById(t, k))
  }

  /** deleteAllThreads: the table is emptied. */
  function DeleteAllThreads(t: Table): (s: Step<Response<string>>)
    ensures s == Step(Response(OK, "Threads Deleted Successfully"), [])
  {
    Step(Response(OK, "Threads Deleted Successfully"), [])
  }

  /**
   * updateThread: an unknown id is answered 400; a null DTO's
   * NullPointerException and the exception findById throws for a null id
   * are rethrown.
   */
  function UpdateThread(t: Table, dto: Option<ThreadDto>): (s: Step<Outcome<Response<string>>>)
    requires Valid(t)
    ensures Valid(s.table)
    ensures dto.None? ==> s == Step(Thrown(NullPointer), t)
    ensures dto.Some? && dto.value.id.None? ==> s == Step(Thrown(InvalidDataAccessApiUsage), t)
    ensures dto.Some? && dto.value.id.Some? && Find(t, dto.value.id.value).None? ==>
      s == Step(Returned(Response(BAD_REQUEST, "Thread Not Found")), t)
    ensures dto.Some? && dto.value.id.Some? && Find(t, dto.value.id.value).Some? ==>
      && s.result == Returned(Response(OK, "Thread Updated Successfully = " + IdText(dto.value.id)))
      && Find(s.table, dto.value.id.value) == Some(Merge(Find(t, dto.value.id.value).value, dto.value))
      && (forall k | k != dto.value.id.value :: Find(s.table, k) == Find(t, k))
      && |s.table| == |t|
  {
    match dto
    case None => Step(Thrown(NullPointer), t)
    case Some(d) =>
      match d.id
      case None => Step(Thrown(InvalidDataAccessApiUsage), t)
      case Some(k) =>
        match Find(t, k)
        case None => Step(Returned(Response(BAD_REQUEST, "Thread Not Found")), t)
        case Some(stored) =>
          var updated := Merge(stored, d);
          SaveValid(t, updated);
          Step(Returned(Response(OK, "Thread Updated Successfully = " + IdText(d.id))), Save(t, updated))
  }

  /**
   * updateThreadPriority: a null priority is answered "Priority Can't Be
   * Null", an unknown id "Entity Not Found"; a null id is findById's
   * translated exception, which neither handler catches.
   */
  function UpdateThreadPriority(t: Table, id: Option<Uuid>, priority: Option<int>): (s: Step<Outcome<Response<string>>>)
    requires Valid(t)
    ensures Valid(s.table)
    ensures priority.None? ==> s == Step(Returned(Response(BAD_REQUEST, "Priority Can't Be Null")), t)
    ensures priority.Some? && id.None? ==> s == Step(Thrown(InvalidDataAccessApiUsage), t)
    ensures priority.Some? && id.Some? && Find(t, id.value).None? ==> s == Step(Returned(Response(BAD_REQUEST, "Entity Not Found")), t)
    ensures priority.Some? && id.Some? && Find(t, id.value).Some? ==>
      && s.result == Returned(Response(OK, "Thread Updated Successfully = " + IdText(id)))
      && Find(s.table, id.value) == Some(Find(t, id.value).value.(priority := priority))
      && (forall k | k != id.value :: Find(s.table, k) == Find(t, k))
      && |s.table| == |t|
  {
    if priority.None? then Step(Returned(Response(BAD_REQUEST, "Priority Can't Be Null")), t)
    else if id.None? then Step(Thrown(InvalidDataAccessApiUsage), t)
    else
      match Find(t, id.value)
      case None => Step(Returned(Response(BAD_REQUEST, "Entity Not Found")), t)
      case Some(stored) =>
        var updated := if stored.priority != priority then stored.(priority := priority) else stored;
        SaveValid(t, updated);
        Step(Returned(Response(OK, "Thread Updated Successfully = " + IdText(id))), Save(t, updated))
  }

  /**
   * updateThreadState: a null state is answered "Thread State Can't Be
   * Null", an unknown id "Entity Not Found"; a null id is findById's
   * translated exception, which neither handler catches.
   */
  function UpdateThreadState(t: Table, id: Option<Uuid>, state: Option<ThreadState>): (s: Step<Outcome<Response<string>>>)
    requires Valid(t)
    ensures Valid(s.table)
    ensures state.None? ==> s == Step(Returned(Response(BAD_REQUEST, "Thread State Can't Be Null")), t)
    ensures state.Some? && id.None? ==> s == Step(Thrown(InvalidDataAccessApiUsage), t)
    ensures state.Some? && id.Some? && Find(t, id.value).None? ==> s == Step(Returned(Response(BAD_REQUEST, "Entity Not Found")), t)
    ensures state.Some? && id.Some? && Find(t, id.value).Some? ==>
      && s.result == Returned(Response(OK, "Thread Updated Successfully = " + IdText(id)))
      && Find(s.table, id.value) == Some(Find(t, id.value).value.(state := state))
      && (forall k | k != id.value :: Find(s.table, k) == Find(t, k))
      && |s.table| == |t|
  {
    if state.None? then Step(Returned(Response(BAD_REQUEST, "Thread State Can't Be Null")), t)
    else if id.None? then Step(Thrown(InvalidDataAccessApiUsage), t)
    else
      match Find(t, id.value)
      case None => Step(Returned(Response(BAD_REQUEST, "Entity Not Found")), t)
      case Some(stored) =>
        var updated := if stored.state != state then stored.(state := state) else stored;
        SaveValid(t, updated);
        Step(Returned(Response(OK, "Thread Updated Successfully = " + IdText(id))), Save(t, updated))
  }
}
