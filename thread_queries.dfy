/**
 * The stream filters the three repositories apply to findAll's list:
 * `.filter(thread -> thread.getType() == T)` and
 * `.filter(thread -> thread.getState() == S)`, alone or chained.
 */
module ThreadQueries {
  import opened Wrappers
  import opened Threads

  /** One filter stage: a required type and/or a required state (None = no test). */
  datatype Query = Query(threadType: Option<ThreadType>, state: Option<ThreadState>)

  const ByNothing := Query(None, None)

  function ByType(t: ThreadType): Query { Query(Some(t), None) }

  function ByState(s: ThreadState): Query { Query(None, Some(s)) }

  /** Java's `==` against an enum constant: a null field never matches. */
  predicate Matches(d: ThreadDto, q: Query) {
    && (q.threadType.None? || d.threadType == q.threadType)
    && (q.state.None? || d.state == q.state)
  }

  /** stream().filter(...).collect(toList()): the matching elements, in order. */
  function Select(ds: seq<ThreadDto>, q: Query): (r: seq<ThreadDto>)
    ensures |r| <= |ds|
    ensures forall d :: d in r <==> d in ds && Matches(d, q)
    ensures forall k | 0 <= k < |r| :: Matches(r[k], q)
  {
    if ds == [] then []
    else (if Matches(ds[0], q) then [ds[0]] else []) + Select(ds[1..], q)
  }

  /** A filter that tests nothing keeps the whole list. */
  lemma {:induction false} SelectIdentity(ds: seq<ThreadDto>)
    ensures Select(ds, ByNothing) == ds
  {
    if ds != [] {
      SelectIdentity(ds[1..]);
    }
  }

  /** Filtering distributes over concatenation: relative order is kept. */
  lemma {:induction false} SelectAppend(a: seq<ThreadDto>, b: seq<ThreadDto>, q: Query)
    ensures Select(a + b, q) == Select(a, q) + Select(b, q)
  {
    if a == [] {
      assert a + b == b;
    } else {
      assert (a + b)[1..] == a[1..] + b;
      SelectAppend(a[1..], b, q);
    }
  }

  /** Each element is kept exactly as often as it occurs, when it matches. */
  lemma {:induction false} SelectCounts(ds: seq<ThreadDto>, q: Query, d: ThreadDto)
    ensures multiset(Select(ds, q))[d] == if Matches(d, q) then multiset(ds)[d] else 0
  {
    if ds != [] {
      SelectCounts(ds[1..], q, d);
      assert ds == [ds[0]] + ds[1..];
    }
  }

  /** Two chained filters, first by type and then by state, are one combined filter. */
  lemma {:induction false} SelectChained(ds: seq<ThreadDto>, t: ThreadType, s: ThreadState)
    ensures Select(Select(ds, ByType(t)), ByState(s)) == Select(ds, Query(Some(t), Some(s)))
  {
    if ds != [] {
      SelectChained(ds[1..], t, s);
      var head := if Matches(ds[0], ByType(t)) then [ds[0]] else [];
      SelectAppend(head, Select(ds[1..], ByType(t)), ByState(s));
    }
  }

  /** A filter applied twice keeps what it kept once. */
  lemma {:induction false} SelectIdempotent(ds: seq<ThreadDto>, q: Query)
    ensures Select(Select(ds, q), q) == Select(ds, q)
  {
    if ds != [] {
      SelectIdempotent(ds[1..], q);
      var head := if Matches(ds[0], q) then [ds[0]] else [];
      SelectAppend(head, Select(ds[1..], q), q);
    }
  }

  /**
   * When every element has a state, the RUNNING and the STOPPED selections
   * split a selection by type (or the whole list) between them.
   */
  lemma {:induction false} StatePartition(ds: seq<ThreadDto>, t: Option<ThreadType>)
    requires forall k | 0 <= k < |ds| :: ds[k].state.Some?
    ensures |Select(ds, Query(t, Some(RUNNING)))| + |Select(ds, Query(t, Some(STOPPED)))| == |Select(ds, Query(t, None))|
    ensures multiset(Select(ds, Query(t, Some(RUNNING)))) + multiset(Select(ds, Query(t, Some(STOPPED))))
         == multiset(Select(ds, Query(t, None)))
  {
    var running, stopped, all := Query(t, Some(RUNNING)), Query(t, Some(STOPPED)), Query(t, None);
    var r, st, a := Select(ds, running), Select(ds, stopped), Select(ds, all);
    forall d ensures multiset(r)[d] + multiset(st)[d] == multiset(a)[d] {
      SelectCounts(ds, running, d);
      SelectCounts(ds, stopped, d);
      SelectCounts(ds, all, d);
      match d.state
      case Some(RUNNING) =>
        assert !Matches(d, stopped) && (Matches(d, running) == Matches(d, all));
      case Some(STOPPED) =>
        assert !Matches(d, running) && (Matches(d, stopped) == Matches(d, all));
      case None =>
        assert d !in ds;
    }
    assert multiset(r) + multiset(st) == multiset(a);
    assert |multiset(r)| == |r| && |multiset(st)| == |st| && |multiset(a)| == |a|;
  }
}
