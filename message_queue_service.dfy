/**
 * MessageQueueService.getQueuePage: one page of a snapshot of the shared
 * queue, through List.subList, PageRequest.of and PageImpl. The queue
 * itself is only read. The arithmetic is Java int arithmetic, so it is
 * modelled twice: as written, where page * size and start + size wrap
 * around at 32 bits, and corrected, where they do not.
 */
module MessageQueueService {
  import opened Threads
  import opened SharedQueue

  const INT_MIN: int := -0x8000_0000
  const INT_MAX: int := 0x7fff_ffff

  predicate IsInt(x: int) {
    INT_MIN <= x <= INT_MAX
  }

  /** The value a Java int expression yields: the exact value reduced into the 32-bit range. */
  function Wrap(x: int): (w: int)
    ensures IsInt(w)
    ensures IsInt(x) ==> w == x
    ensures (x - w) % 0x1_0000_0000 == 0
  {
    (x - INT_MIN) % 0x1_0000_0000 + INT_MIN
  }

  /** Page<String>: its content and getTotalElements(). */
  datatype Page = Page(content: seq<string>, total: int)

  /** Page.empty(): no content, no elements. */
  const EmptyPage := Page([], 0)

  /**
   * The total PageImpl reports: the given total, except that a non-empty
   * page reaching past it (by its long offset page * size) reports
   * offset + content size instead.
   */
  function PageImplTotal(contentSize: nat, offset: int, pageSize: int, total: nat): int {
    if contentSize > 0 && offset + pageSize > total then offset + contentSize else total
  }

  /**
   * What getQueuePage does once start and end are computed: past the end
   * an empty page; subList rejects a negative start
   * (IndexOutOfBoundsException) and start > end (IllegalArgumentException);
   * PageRequest.of rejects page < 0 and size < 1 (IllegalArgumentException).
   */
  function Window(queue: seq<string>, page: int, size: int, start: int, end: int): (r: Outcome<Page>)
    requires end <= |queue|
  {
    if start > |queue| then Returned(EmptyPage)
    else if start < 0 then Thrown(IndexOutOfBounds)
    else if start > end then Thrown(IllegalArgument)
    else if page < 0 || size < 1 then Thrown(IllegalArgument)
    else
      var content := queue[start..end];
      Returned(Page(content, PageImplTotal(|content|, page * size, size, |queue|)))
  }

  function Min(a: int, b: int): int {
    if a < b then a else b
  }

  /** getQueuePage as written: start and end are computed in 32-bit int arithmetic. */
  function GetQueuePageAsWritten(queue: seq<string>, page: int, size: int): (r: Outcome<Page>)
    requires IsInt(page) && IsInt(size) && |queue| <= INT_MAX
    ensures page >= 0 && size >= 1 && r.Returned? && r.value != EmptyPage ==> |r.value.content| <= size
  {
    var start := Wrap(page * size);
    var end := Min(Wrap(start + size), |queue|);
    Window(queue, page, size, start, end)
  }

  /**
   * getQueuePage as evidently intended: start = page * size and
   * end = min(start + size, length) without wrap-around. Valid arguments
   * always succeed: with an empty page beyond the end, otherwise the slice
   * [start, end) of the queue in FIFO order, at most size long, with the
   * queue length as total.
   */
  function GetQueuePage(queue: seq<string>, page: int, size: int): (r: Outcome<Page>)
    ensures page >= 0 && size >= 1 ==> r.Returned?
    ensures page >= 0 && size >= 1 && page * size > |queue| ==> r == Returned(EmptyPage)
    ensures page >= 0 && size >= 1 && page * size <= |queue| ==>
      && r.Returned?
      && r.value.content == queue[page * size .. Min(page * size + size, |queue|)]
      && |r.value.content| <= size
      && r.value.total == |queue|
    ensures page >= 0 && size >= 1 && page * size == |queue| ==> r == Returned(Page([], |queue|))
    ensures r.Returned? && r.value != EmptyPage ==> page >= 0 && size >= 1
  {
    var start := page * size;
    var end := Min(start + size, |queue|);
    Window(queue, page, size, start, end)
  }

  /**
   * getQueuePage on the shared queue, with the corrected arithmetic: it
   * pages a snapshot of the items and, having no modifies clause, leaves
   * the queue as it was. Whenever page * size and page * size + size fit
   * in an int, its answer is also the one the code as written gives.
   */
  method QueuePage(sharedQueue: BlockingQueue, page: int, size: int) returns (r: Outcome<Page>)
    ensures r == GetQueuePage(sharedQueue.items, page, size)
    ensures page >= 0 && size >= 1 ==>
      r.Returned? && (r.value == EmptyPage || r.value.content <= sharedQueue.items[page * size..])
    ensures IsInt(page) && IsInt(size) && |sharedQueue.items| <= INT_MAX && IsInt(page * size) && IsInt(page * size + size) ==>
      r == GetQueuePageAsWritten(sharedQueue.items, page, size)
  {
    var queueAsList := sharedQueue.items;
    r := GetQueuePage(queueAsList, page, size);
    if IsInt(page) && IsInt(size) && |queueAsList| <= INT_MAX && IsInt(page * size) && IsInt(page * size + size) {
      AsWrittenAgreesWithoutOverflow(queueAsList, page, size);
    }
  }

  /** Without overflow, the code as written and the corrected function agree. */
  lemma AsWrittenAgreesWithoutOverflow(queue: seq<string>, page: int, size: int)
    requires IsInt(page) && IsInt(size) && |queue| <= INT_MAX
    requires IsInt(page * size) && IsInt(page * size + size)
    ensures GetQueuePageAsWritten(queue, page, size) == GetQueuePage(queue, page, size)
  {
  }

  /**
   * page = size = 65536 on a one-message queue: page * size is 2^32, which
   * wraps to 0, so the code as written serves the first page (with the
   * total PageImpl derives from the real offset) where an empty page is due.
   */
  lemma OverflowServesFirstPage()
    ensures GetQueuePageAsWritten(["m"], 65536, 65536) == Returned(Page(["m"], 0x1_0000_0001))
    ensures GetQueuePage(["m"], 65536, 65536) == Returned(EmptyPage)
  {
    assert Wrap(65536 * 65536) == 0;
    assert Wrap(0 + 65536) == 65536;
    assert ["m"][0..1] == ["m"];
  }

  /** The contents of pages 0 .. n - 1, one after the other. */
  function Pages(queue: seq<string>, size: int, n: nat): seq<string>
    requires size >= 1
  {
    if n == 0 then []
    else
      var r := GetQueuePage(queue, n - 1, size);
      Pages(queue, size, n - 1) + (if r.Returned? then r.value.content else [])
  }

  /** The first n pages of a fixed size hold the queue's first n * size messages, in order. */
  lemma {:induction false} PagesArePrefix(queue: seq<string>, size: int, n: nat)
    requires size >= 1
    ensures Pages(queue, size, n) == queue[..Min(n * size, |queue|)]
  {
    if n > 0 {
      PagesArePrefix(queue, size, n - 1);
      var start := (n - 1) * size;
      NextStart(n, size);
      var r := GetQueuePage(queue, n - 1, size);
      if start <= |queue| {
        assert r.value.content == queue[start..Min(start + size, |queue|)];
        SlicesJoin(queue, start, Min(start + size, |queue|));
      } else {
        assert r == Returned(EmptyPage);
      }
    }
  }

  lemma NextStart(n: nat, size: int)
    requires n > 0
    ensures n * size == (n - 1) * size + size
  {
  }

  lemma SlicesJoin(queue: seq<string>, i: nat, j: nat)
    requires i <= j <= |queue|
    ensures queue[..i] + queue[i..j] == queue[..j]
  {
  }

  /** Paging through with any fixed size yields every message exactly once, in FIFO order. */
  lemma PagesCoverQueue(queue: seq<string>, size: int)
    requires size >= 1
    ensures Pages(queue, size, (|queue| + size - 1) / size) == queue
  {
    var n := (|queue| + size - 1) / size;
    PagesArePrefix(queue, size, n);
    assert n * size >= |queue|;
  }
}
