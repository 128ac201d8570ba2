/**
 * One database table behind a JpaRepository (ISenderThreadRepository,
 * IReceiverThreadRepository, IThreadRepository): its rows in the order
 * findAll returns them, and the findById / save / saveAll / deleteById /
 * deleteAll operations the repositories call.
 */
module Store {
  import opened Wrappers
  import opened Threads

  type Table = seq<ThreadEntity>

  /** A repository call's result together with the table it leaves behind. */
  datatype Step<+R> = Step(result: R, table: Table)

  /** Every row is storable and the primary key is unique. */
  predicate Valid(t: Table) {
    && (forall i | 0 <= i < |t| :: Complete(t[i]))
    && (forall i, j | 0 <= i < j < |t| :: t[i].id != t[j].id)
  }

  /** Every key in the table is below bound: ids from bound upwards are fresh. */
  predicate IdsBelow(t: Table, bound: nat) {
    forall i | 0 <= i < |t| :: t[i].id.Some? && t[i].id.value < bound
  }

  /** findById for a non-null id. */
  function Find(t: Table, id: Uuid): (r: Option<ThreadEntity>)
    ensures r.Some? ==> r.value in t && r.value.id == Some(id)
    ensures r.None? <==> forall i | 0 <= i < |t| :: t[i].id != Some(id)
  {
    if t == [] then None
    else if t[0].id == Some(id) then Some(t[0])
    else Find(t[1..], id)
  }

  /** With unique keys, the row holding an id is the one findById returns. */
  lemma {:induction false} FindRow(t: Table, i: nat)
    requires Valid(t) && i < |t|
    ensures Find(t, t[i].id.value) == Some(t[i])
  {
    if i > 0 {
      assert Valid(t[1..]) by {
        forall j, k | 0 <= j < k < |t[1..]| ensures t[1..][j].id != t[1..][k].id {
          assert t[1..][j] == t[j + 1] && t[1..][k] == t[k + 1];
        }
      }
      assert t[0].id != t[i].id;
      FindRow(t[1..], i - 1);
    }
  }

  /**
   * save for an entity with a non-null id: JPA merges it, so an existing row
   * with that key is replaced in place and a new key is appended.
   */
  function Save(t: Table, e: ThreadEntity): (r: Table)
    requires e.id.Some?
    ensures Find(r, e.id.value) == Some(e)
    ensures forall k | k != e.id.value :: Find(r, k) == Find(t, k)
    ensures |r| == if Find(t, e.id.value).Some? then |t| else |t| + 1
    ensures Find(t, e.id.value).None? ==> r == t + [e]
  {
    if t == [] then [e]
    else if t[0].id == e.id then [e] + t[1..]
    else [t[0]] + Save(t[1..], e)
  }

  /** Dropping the first row keeps the table valid, and its key is absent from the rest. */
  lemma TailValid(t: Table)
    requires Valid(t) && t != []
    ensures Valid(t[1..])
    ensures Find(t[1..], t[0].id.value).None?
  {
    forall a, b | 0 <= a < b < |t[1..]| ensures t[1..][a].id != t[1..][b].id {
      assert t[1..][a] == t[a + 1] && t[1..][b] == t[b + 1];
    }
    forall a | 0 <= a < |t[1..]| ensures t[1..][a].id != t[0].id {
      assert t[1..][a] == t[a + 1];
    }
  }

  /** Saving a storable row keeps the table valid. */
  lemma {:induction false} SaveValid(t: Table, e: ThreadEntity)
    requires Valid(t) && Complete(e)
    ensures Valid(Save(t, e))
  {
    var r := Save(t, e);
    if t == [] {
    } else if t[0].id == e.id {
      forall i, j | 0 <= i < j < |r| ensures r[i].id != r[j].id {
        assert r[j] == t[j];
        if i > 0 {
          assert r[i] == t[i];
        }
      }
    } else {
      TailValid(t);
      SaveValid(t[1..], e);
      var rest := Save(t[1..], e);
      assert Find(rest, t[0].id.value).None?;
      forall i, j | 0 <= i < j < |r| ensures r[i].id != r[j].id {
        assert r[j] == rest[j - 1];
        if i > 0 {
          assert r[i] == rest[i - 1];
        }
      }
    }
  }

  /** saveAll: one save per entity, in list order. */
  function SaveAll(t: Table, es: seq<ThreadEntity>): (r: Table)
    requires forall k | 0 <= k < |es| :: es[k].id.Some?
    decreases |es|
  {
    if es == [] then t else SaveAll(Save(t, es[0]), es[1..])
  }

  /** Keys that are new and pairwise distinct. */
  predicate FreshKeys(t: Table, es: seq<ThreadEntity>) {
    && (forall k | 0 <= k < |es| :: es[k].id.Some?)
    && (forall k, i | 0 <= k < |es| && 0 <= i < |t| :: t[i].id != es[k].id)
    && (forall a, b | 0 <= a < b < |es| :: es[a].id != es[b].id)
  }

  /** After saving the first fresh row, the others are still fresh. */
  lemma FreshTail(t: Table, es: seq<ThreadEntity>)
    requires FreshKeys(t, es) && es != []
    ensures Save(t, es[0]) == t + [es[0]]
    ensures FreshKeys(t + [es[0]], es[1..])
  {
    var e := es[0];
    var rest := es[1..];
    assert Find(t, e.id.value).None?;
    forall k, i | 0 <= k < |rest| && 0 <= i < |t + [e]| ensures (t + [e])[i].id != rest[k].id {
      assert rest[k] == es[k + 1];
      assert es[k + 1].id != e.id;
    }
    forall a, b | 0 <= a < b < |rest| ensures rest[a].id != rest[b].id {
      assert rest[a] == es[a + 1] && rest[b] == es[b + 1];
    }
  }

  /** Saving rows whose keys are new and pairwise distinct appends them in order. */
  lemma {:induction false} SaveAllFresh(t: Table, es: seq<ThreadEntity>)
    requires FreshKeys(t, es)
    ensures SaveAll(t, es) == t + es
    decreases |es|
  {
    if es != [] {
      FreshTail(t, es);
      SaveAllFresh(t + [es[0]], es[1..]);
      SaveAllUnfold(t, es);
      AppendFirst(t, es);
    }
  }

  /** saveAll saves the first entity, then the rest. */
  lemma SaveAllUnfold(t: Table, es: seq<ThreadEntity>)
    requires es != [] && forall k | 0 <= k < |es| :: es[k].id.Some?
    ensures SaveAll(t, es) == SaveAll(Save(t, es[0]), es[1..])
  {
  }

  lemma AppendFirst<T>(t: seq<T>, es: seq<T>)
    requires es != []
    ensures (t + [es[0]]) + es[1..] == t + es
  {
    assert es == [es[0]] + es[1..];
  }

  /** Appending storable rows with fresh distinct keys keeps the table valid. */
  lemma AppendValid(t: Table, es: seq<ThreadEntity>)
    requires Valid(t) && FreshKeys(t, es)
    requires forall k | 0 <= k < |es| :: Complete(es[k])
    ensures Valid(t + es)
  {
    var r := t + es;
    forall i, j | 0 <= i < j < |r| ensures r[i].id != r[j].id {
      if i < |t| && j >= |t| {
        assert r[j] == es[j - |t|];
      } else if i >= |t| {
        assert r[i] == es[i - |t|] && r[j] == es[j - |t|];
      }
    }
  }

  /** deleteById for a non-null id: the row with that key goes, if there is one. */
  function DeleteById(t: Table, id: Uuid): (r: Table)
    ensures Find(r, id).None?
    ensures forall k | k != id :: Find(r, k) == Find(t, k)
    ensures |r| <= |t|
    ensures forall i | 0 <= i < |r| :: r[i] in t
  {
    if t == [] then []
    else if t[0].id == Some(id) then DeleteById(t[1..], id)
    else [t[0]] + DeleteById(t[1..], id)
  }

  /** Deleting keeps the table valid. */
  lemma {:induction false} DeleteValid(t: Table, id: Uuid)
    requires Valid(t)
    ensures Valid(DeleteById(t, id))
  {
    if t != [] {
      TailValid(t);
      DeleteValid(t[1..], id);
      if t[0].id != Some(id) {
        var rest := DeleteById(t[1..], id);
        assert Find(rest, t[0].id.value).None?;
        var r := [t[0]] + rest;
        forall i, j | 0 <= i < j < |r| ensures r[i].id != r[j].id {
          assert r[j] == rest[j - 1];
          if i > 0 {
            assert r[i] == rest[i - 1];
          }
        }
      }
    }
  }

  /**
   * The setters every update method applies to the fetched entity: a field
   * is overwritten only when the input carries a non-null value for it
   * (the extra "differs from the stored value" test changes nothing).
   */
  function Merge(stored: ThreadEntity, input: ThreadDto): (e: ThreadEntity)
    ensures e.id == stored.id
    ensures e.state == if input.state.Some? then input.state else stored.state
    ensures e.priority == if input.priority.Some? then input.priority else stored.priority
    ensures e.threadType == if input.threadType.Some? then input.threadType else stored.threadType
    ensures Complete(stored) ==> Complete(e)
  {
    var withState := if input.state.Some? && stored.state != input.state then stored.(state := input.state) else stored;
    var withPriority := if input.priority.Some? && withState.priority != input.priority then withState.(priority := input.priority) else withState;
    if input.threadType.Some? && withPriority.threadType != input.threadType then withPriority.(threadType := input.threadType) else withPriority
  }

  /** Merging an input a second time changes nothing more. */
  lemma MergeIdempotent(stored: ThreadEntity, input: ThreadDto)
    ensures Merge(Merge(stored, input), input) == Merge(stored, input)
  {
  }

  /** saveAll of storable rows keeps the table valid. */
  lemma {:induction false} SaveAllValid(t: Table, es: seq<ThreadEntity>)
    requires Valid(t)
    requires forall k | 0 <= k < |es| :: es[k].id.Some? && Complete(es[k])
    ensures Valid(SaveAll(t, es))
    decreases |es|
  {
    if es != [] {
      SaveValid(t, es[0]);
      SaveAllValid(Save(t, es[0]), es[1..]);
    }
  }

  /** A table whose keys were all already present stays below the same bound. */
  lemma KeysKept(t: Table, r: Table, bound: nat)
    requires IdsBelow(t, bound)
    requires forall i | 0 <= i < |r| :: r[i].id.Some?
    requires forall k | Find(r, k).Some? :: Find(t, k).Some?
    ensures IdsBelow(r, bound)
  {
    forall i | 0 <= i < |r| ensures r[i].id.value < bound {
      var k := r[i].id.value;
      assert Find(r, k).Some?;
      var e := Find(t, k).value;
      var j :| 0 <= j < |t| && t[j] == e;
    }
  }
}
