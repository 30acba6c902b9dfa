/**
 * `SoftDeleteManager`: the entry points from which an entity's querysets are
 * built. `PlainManager` is the framework's unscoped default manager, which the
 * soft-delete manager specialises; it is what an unfiltered manager would be.
 * Only its filtering is modelled: it hands out the same `QuerySet` as the
 * soft-delete manager, so bulk operations on it take the soft-delete meaning,
 * whereas a plain manager's queryset `delete()` removes rows. No property here
 * applies a bulk operation to a plain manager's queryset.
 */
module Managers {
  import opened Wrappers
  import opened Store
  import opened QuerySets

  /**
   * A manager attached to the entity whose non-`deleted_at` columns are `P`.
   * `PlainManager` filters nothing; see the module comment for what it omits.
   */
  datatype Manager<P> = SoftDeleteManager | PlainManager

  /**
   * `get_queryset()`: the starting point of every query through the manager,
   * including `all()` and `filter()`. A soft-delete manager hides every row
   * whose `deleted_at` is set; a plain manager hides nothing.
   */
  function GetQueryset<P(!new)>(m: Manager<P>): (qs: QuerySet<P>)
    ensures m.SoftDeleteManager? ==> forall id, row :: Matches(qs, id, row) <==> row.deletedAt == None
    ensures m.PlainManager? ==> forall id, row :: Matches(qs, id, row)
  {
    match m
    case SoftDeleteManager => Filter(Unfiltered(), (id: Id, row: Row<P>) => row.IsLive())
    case PlainManager => Unfiltered()
  }

  /** `Manager.all()`, which hands back `get_queryset()` unchanged. */
  function All<P(!new)>(m: Manager<P>): (qs: QuerySet<P>) {
    GetQueryset(m)
  }

  /** `all_with_deleted()`: a queryset with no soft-delete filter. */
  function AllWithDeleted<P(!new)>(m: Manager<P>): (qs: QuerySet<P>)
    requires m.SoftDeleteManager?
    ensures forall id, row :: Matches(qs, id, row)
  {
    Unfiltered()
  }

  /** `deleted_only()`: the soft-deleted rows only. */
  function DeletedOnly<P(!new)>(m: Manager<P>): (qs: QuerySet<P>)
    requires m.SoftDeleteManager?
    ensures forall id, row :: Matches(qs, id, row) <==> row.deletedAt != None
  {
    Dead(AllWithDeleted(m))
  }

  /** The default view of a soft-delete manager yields exactly the live rows, unchanged. */
  lemma DefaultViewIsLiveRows<P(!new)>(m: Manager<P>, t: Table<P>)
    requires m.SoftDeleteManager?
    ensures Eval(GetQueryset(m), t).Keys == LiveIds(t)
    ensures forall id :: id in LiveIds(t) ==> Eval(GetQueryset(m), t)[id] == t[id]
    ensures Eval(Dead(GetQueryset(m)), t) == map[]
  {
  }

  /** `all_with_deleted()` yields the whole table, live and dead rows alike. */
  lemma AllWithDeletedIsTable<P(!new)>(m: Manager<P>, t: Table<P>)
    requires m.SoftDeleteManager?
    ensures Eval(AllWithDeleted(m), t) == t
  {
  }

  /** `deleted_only()` is the unscoped view minus the default view. */
  lemma DeletedOnlyIsDifference<P(!new)>(m: Manager<P>, t: Table<P>)
    requires m.SoftDeleteManager?
    ensures Eval(DeletedOnly(m), t).Keys == Eval(AllWithDeleted(m), t).Keys - Eval(GetQueryset(m), t).Keys
    ensures Eval(DeletedOnly(m), t).Keys == DeadIds(t)
  {
  }

  /** A bulk restore on any queryset built from the default view writes nothing new. */
  lemma RestoreThroughDefaultIsNoOp<P(!new)>(m: Manager<P>, cond: (Id, Row<P>) -> bool, t: Table<P>)
    requires m.SoftDeleteManager?
    ensures Restore(Filter(GetQueryset(m), cond), t).table == t
  {
  }

  /**
   * A bulk delete built from the default view only stamps live rows: every
   * soft-deleted row keeps its timestamp, and the live count drops by the
   * count the delete reports.
   */
  lemma DeleteThroughDefaultKeepsDeadRows<P(!new)>(m: Manager<P>, cond: (Id, Row<P>) -> bool, t: Table<P>, now: Time)
    requires m.SoftDeleteManager?
    ensures var r := Delete(Filter(GetQueryset(m), cond), t, now);
      && (forall id :: id in t && !t[id].IsLive() ==> r.table[id] == t[id])
      && LiveIds(r.table) == LiveIds(t) - Eval(Filter(GetQueryset(m), cond), t).Keys
      && |LiveIds(r.table)| == |LiveIds(t)| - r.count
  {
  }

  /** A bulk delete built from `all_with_deleted()` restamps soft-deleted rows too. */
  lemma DeleteThroughAllWithDeletedRestamps<P(!new)>(m: Manager<P>, cond: (Id, Row<P>) -> bool, t: Table<P>, now: Time)
    requires m.SoftDeleteManager?
    ensures var r := Delete(Filter(AllWithDeleted(m), cond), t, now);
      forall id :: id in t && cond(id, t[id]) ==> r.table[id].deletedAt == Some(now)
  {
  }

  /** Hard-deleting `deleted_only()` purges the soft-deleted rows and leaves exactly the default view. */
  lemma PurgeDeletedOnly<P(!new)>(m: Manager<P>, t: Table<P>)
    requires m.SoftDeleteManager?
    ensures HardDelete(DeletedOnly(m), t).table == Eval(GetQueryset(m), t)
    ensures HardDelete(DeletedOnly(m), t).count == |DeadIds(t)|
  {
    assert Eval(DeletedOnly(m), t).Keys == DeadIds(t);
  }

  /**
   * Soft-deleting rows in bulk and then restoring the same keys through
   * `all_with_deleted()` gives back the original table, provided every
   * matched row was live.
   */
  lemma DeleteThenRestore<P(!new)>(m: Manager<P>, qs: QuerySet<P>, t: Table<P>, now: Time)
    requires m.SoftDeleteManager?
    requires forall id :: id in t && Matches(qs, id, t[id]) ==> t[id].IsLive()
    ensures var again := Filter(AllWithDeleted(m), (id: Id, row: Row<P>) => id in Eval(qs, t));
      Restore(again, Delete(qs, t, now).table).table == t
  {
  }
}
