/**
 * ThreadManagerService: builds sender and receiver records for the
 * combined table of ThreadRepository and stores them.
 */
module ThreadManagerService {
  import opened Wrappers
  import opened Threads
  import opened Store
  import ThreadMapper
  import Repo = ThreadRepository

  /** Java's loop bound `i < amount`: a negative amount runs no iteration. */
  function Count(amount: int): nat {
    if amount < 0 then 0 else amount
  }

  /** The first n records of one loop: consecutive fresh ids, RUNNING, priority amount - i. */
  function Group(kind: ThreadType, amount: int, first: Uuid, n: nat): (g: seq<ThreadDto>)
    ensures |g| == n
    ensures forall i | 0 <= i < n :: g[i] == ThreadDto(Some(first + i), Some(kind), Some(RUNNING), Some(amount - i))
  {
    if n == 0 then [] else Group(kind, amount, first, n - 1) + [ThreadDto(Some(first + n - 1), Some(kind), Some(RUNNING), Some(amount - (n - 1)))]
  }

  /** The list createSenderReceiverThreadsWithAmount hands to the repository. */
  function Plan(senderAmount: int, receiverAmount: int, first: Uuid): seq<ThreadDto> {
    Group(SENDER, senderAmount, first, Count(senderAmount))
      + Group(RECEIVER, receiverAmount, first + Count(senderAmount), Count(receiverAmount))
  }

  /**
   * The shape of the plan: all senders, then all receivers; every record
   * RUNNING with a consecutive fresh id; within each group the priorities
   * run from the amount down to 1, strictly decreasing.
   */
  lemma PlanShape(senderAmount: int, receiverAmount: int, first: Uuid)
    ensures var p := Plan(senderAmount, receiverAmount, first);
      var s := Count(senderAmount);
      && |p| == Count(senderAmount) + Count(receiverAmount)
      && (forall i | 0 <= i < |p| :: p[i].id == Some(first + i) && p[i].state == Some(RUNNING) && p[i].priority.Some?)
      && (forall i | 0 <= i < s :: p[i].threadType == Some(SENDER) && p[i].priority == Some(senderAmount - i))
      && (forall i | s <= i < |p| :: p[i].threadType == Some(RECEIVER) && p[i].priority == Some(receiverAmount - (i - s)))
      && (forall i | 0 <= i < |p| :: 1 <= p[i].priority.value <= if i < s then senderAmount else receiverAmount)
      && (forall i, j | 0 <= i < j < s :: p[i].priority.value > p[j].priority.value)
      && (forall i, j | s <= i < j < |p| :: p[i].priority.value > p[j].priority.value)
  {
    var p := Plan(senderAmount, receiverAmount, first);
    var s := Count(senderAmount);
    var senders := Group(SENDER, senderAmount, first, s);
    var receivers := Group(RECEIVER, receiverAmount, first + s, Count(receiverAmount));
    assert forall i | 0 <= i < s :: p[i] == senders[i];
    assert forall i | s <= i < |p| :: p[i] == receivers[i - s];
  }

  /** A plan above every stored key is storable in one saveAll, which appends it. */
  lemma PlanStorable(t: Table, senderAmount: int, receiverAmount: int, first: Uuid)
    requires IdsBelow(t, first)
    ensures var es := ThreadMapper.EntityList(Plan(senderAmount, receiverAmount, first));
      && FreshKeys(t, es)
      && (forall k | 0 <= k < |es| :: es[k].id.Some? && Complete(es[k]))
      && IdsBelow(t + es, first + |es|)
  {
    PlanShape(senderAmount, receiverAmount, first);
    var es := ThreadMapper.EntityList(Plan(senderAmount, receiverAmount, first));
    assert forall k | 0 <= k < |es| :: es[k].id == Some(first + k);
  }

  class ThreadManagerService {
    /** The combined thread table behind ThreadRepository. */
    var threads: Table
    /** Ids below nextId are taken; UUID.randomUUID hands out nextId. */
    var nextId: Uuid

    predicate Valid()
      reads this
    {
      Store.Valid(threads) && IdsBelow(threads, nextId)
    }

    constructor (table: Table, firstFreshId: Uuid)
      requires Store.Valid(table) && IdsBelow(table, firstFreshId)
      ensures Valid() && threads == table && nextId == firstFreshId
    {
      threads := table;
      nextId := firstFreshId;
    }

    /**
     * createThread: the caller's id is replaced by a fresh one and the
     * record is stored; a null DTO fails on the setter.
     */
    method CreateThread(dto: Option<ThreadDto>) returns (r: Outcome<Response<Option<ThreadDto>>>)
      requires Valid()
      modifies this
      ensures Valid()
      ensures dto.None? ==> r == Thrown(NullPointer) && threads == old(threads) && nextId == old(nextId)
      ensures dto.Some? ==>
        var stored := dto.value.(id := Some(old(nextId)));
        && nextId == old(nextId) + 1
        && Find(old(threads), old(nextId)).None?
        && (Complete(ThreadMapper.Entity(stored)) ==>
              r == Returned(Response(OK, Some(stored))) && threads == old(threads) + [ThreadMapper.Entity(stored)])
        && (!Complete(ThreadMapper.Entity(stored)) ==> r == Thrown(StorageFailure) && threads == old(threads))
    {
      if dto.None? {
        r := Thrown(NullPointer);
        return;
      }
      var threadDto := dto.value.(id := Some(nextId));
      assert Find(threads, nextId).None?;
      nextId := nextId + 1;
      var step := Repo.CreateThread(threads, Some(threadDto));
      threads := step.table;
      r := step.result;
    }

    /**
     * createSenderReceiverThreadsWithAmount: senderAmount senders, then
     * receiverAmount receivers, each with a fresh id and priority
     * amount - i, stored in one call whose result is returned.
     */
    method CreateSenderReceiverThreadsWithAmount(senderAmount: int, receiverAmount: int) returns (r: Outcome<bool>)
      requires Valid()
      modifies this
      ensures Valid()
      ensures r == Returned(true)
      ensures threads == old(threads) + ThreadMapper.EntityList(Plan(senderAmount, receiverAmount, old(nextId)))
      ensures nextId == old(nextId) + Count(senderAmount) + Count(receiverAmount)
    {
      var threadDtoList: seq<ThreadDto> := [];
      var first := nextId;
      var i := 0;
      while i < senderAmount
        invariant 0 <= i <= Count(senderAmount)
        invariant threadDtoList == Group(SENDER, senderAmount, first, i)
        invariant nextId == first + i && threads == old(threads)
      {
        threadDtoList := threadDtoList + [ThreadDto(Some(nextId), Some(SENDER), Some(RUNNING), Some(senderAmount - i))];
        nextId := nextId + 1;
        i := i + 1;
      }
      assert i == Count(senderAmount);
      var senderList := threadDtoList;
      i := 0;
      while i < receiverAmount
        invariant 0 <= i <= Count(receiverAmount)
        invariant threadDtoList == senderList + Group(RECEIVER, receiverAmount, first + Count(senderAmount), i)
        invariant nextId == first + Count(senderAmount) + i && threads == old(threads)
      {
        threadDtoList := threadDtoList + [ThreadDto(Some(nextId), Some(RECEIVER), Some(RUNNING), Some(receiverAmount - i))];
        nextId := nextId + 1;
        i := i + 1;
      }
      assert i == Count(receiverAmount);
      assert threadDtoList == Plan(senderAmount, receiverAmount, first);
      PlanStorable(threads, senderAmount, receiverAmount, first);
      SaveAllFresh(threads, ThreadMapper.EntityList(threadDtoList));
      AppendValid(threads, ThreadMapper.EntityList(threadDtoList));
      var step := Repo.CreateSenderReceiverThreadsWithAmount(threads, threadDtoList);
      threads := step.table;
      r := step.result;
    }
  }
}
