/**
 * `SoftDeleteQuerySet`: a queryset is a condition on rows, evaluated against
 * the table at the moment it runs. Bulk operations evaluate it once and then
 * update or remove the matched keys.
 */
module QuerySets {
  import opened Wrappers
  import opened Store

  /** The rows a queryset selects, as a condition on a row and its key. */
  datatype QuerySet<!P> = QuerySet(pred: (Id, Row<P>) -> bool)

  predicate Matches<P(!new)>(qs: QuerySet<P>, id: Id, row: Row<P>) {
    qs.pred(id, row)
  }

  /** The result of a bulk write: the new table and the row count reported. */
  datatype Written<P> = Written(table: Table<P>, count: nat)

  /** A queryset over the model with no filter applied. */
  function Unfiltered<P(!new)>(): (qs: QuerySet<P>) {
    QuerySet((id: Id, row: Row<P>) => true)
  }

  /** Narrows a queryset by a further condition, as `.filter(...)` does. */
  function Filter<P(!new)>(qs: QuerySet<P>, cond: (Id, Row<P>) -> bool): (r: QuerySet<P>)
    ensures forall id, row :: Matches(r, id, row) <==> Matches(qs, id, row) && cond(id, row)
  {
    QuerySet((id: Id, row: Row<P>) => qs.pred(id, row) && cond(id, row))
  }

  /** The rows a queryset yields when run against table `t`. */
  function Eval<P(!new)>(qs: QuerySet<P>, t: Table<P>): (rows: Table<P>)
    ensures forall id :: id in rows <==> id in t && Matches(qs, id, t[id])
    ensures forall id :: id in rows ==> rows[id] == t[id]
  {
    map id | id in t && Matches(qs, id, t[id]) :: t[id]
  }

  /** The keys a queryset matches in table `t`. */
  function MatchedIds<P(!new)>(qs: QuerySet<P>, t: Table<P>): (ids: set<Id>)
    ensures ids == Eval(qs, t).Keys
  {
    set id | id in t && Matches(qs, id, t[id])
  }

  /** `alive()`: keeps the rows of `qs` whose `deleted_at` is null. */
  function Alive<P(!new)>(qs: QuerySet<P>): (r: QuerySet<P>)
    ensures forall id, row :: Matches(r, id, row) <==> Matches(qs, id, row) && row.deletedAt == None
  {
    Filter(qs, (id: Id, row: Row<P>) => row.IsLive())
  }

  /** `dead()`: keeps the rows of `qs` whose `deleted_at` is set. */
  function Dead<P(!new)>(qs: QuerySet<P>): (r: QuerySet<P>)
    ensures forall id, row :: Matches(r, id, row) <==> Matches(qs, id, row) && row.deletedAt != None
  {
    Filter(qs, (id: Id, row: Row<P>) => !row.IsLive())
  }

  /**
   * `update(deleted_at=v)`: one set-based write of `v` into the `deleted_at`
   * column of every matched row. It reports the number of rows matched.
   */
  function UpdateDeletedAt<P(!new)>(qs: QuerySet<P>, t: Table<P>, v: Option<Time>): (r: Written<P>)
    ensures r.table.Keys == t.Keys
    ensures forall id :: id in t ==> r.table[id].payload == t[id].payload
    ensures forall id :: id in t && Matches(qs, id, t[id]) ==> r.table[id].deletedAt == v
    ensures forall id :: id in t && !Matches(qs, id, t[id]) ==> r.table[id] == t[id]
    ensures r.count == |Eval(qs, t)|
  {
    var matched := MatchedIds(qs, t);
    var written := map id | id in t :: if id in matched then Row(v, t[id].payload) else t[id];
    assert |matched| == |Eval(qs, t)| by {
      assert matched == Eval(qs, t).Keys;
    }
    Written(written, |matched|)
  }

  /**
   * Bulk `delete()`: stamps every matched row with the single instant `now`
   * and removes nothing.
   */
  function Delete<P(!new)>(qs: QuerySet<P>, t: Table<P>, now: Time): (r: Written<P>)
    ensures r.table.Keys == t.Keys
    ensures forall id :: id in t && Matches(qs, id, t[id]) ==> r.table[id] == Row(Some(now), t[id].payload)
    ensures forall id :: id in t && !Matches(qs, id, t[id]) ==> r.table[id] == t[id]
    ensures r.count == |Eval(qs, t)|
  {
    UpdateDeletedAt(qs, t, Some(now))
  }

  /** Bulk `restore()`: clears `deleted_at` on every matched row. */
  function Restore<P(!new)>(qs: QuerySet<P>, t: Table<P>): (r: Written<P>)
    ensures r.table.Keys == t.Keys
    ensures forall id :: id in t && Matches(qs, id, t[id]) ==> r.table[id] == Row(None, t[id].payload)
    ensures forall id :: id in t && !Matches(qs, id, t[id]) ==> r.table[id] == t[id]
    ensures r.count == |Eval(qs, t)|
  {
    UpdateDeletedAt(qs, t, None)
  }

  /**
   * Bulk `hard_delete()`: the framework's own row removal. The count is the
   * number of rows removed from this table.
   */
  function HardDelete<P(!new)>(qs: QuerySet<P>, t: Table<P>): (r: Written<P>)
    ensures r.table.Keys == t.Keys - Eval(qs, t).Keys
    ensures forall id :: id in r.table ==> r.table[id] == t[id]
    ensures r.count == |Eval(qs, t)|
  {
    var matched := MatchedIds(qs, t);
    Written(t - matched, |matched|)
  }

  /** `alive()` and `dead()` split the rows of any queryset between them. */
  lemma AliveDeadPartition<P(!new)>(qs: QuerySet<P>, t: Table<P>)
    ensures Eval(Alive(qs), t).Keys !! Eval(Dead(qs), t).Keys
    ensures Eval(Alive(qs), t) + Eval(Dead(qs), t) == Eval(qs, t)
    ensures Eval(Alive(qs), t).Keys == Eval(qs, t).Keys * LiveIds(t)
    ensures Eval(Dead(qs), t).Keys == Eval(qs, t).Keys * DeadIds(t)
  {
  }
}
