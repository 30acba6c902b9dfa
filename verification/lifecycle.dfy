/**
 * The life of one soft-deletable record as a state machine over the table:
 * Live, Deleted at some instant, or Destroyed (no row). The lemmas tie each
 * record operation to its transition and to what the managers then show.
 */
module Lifecycle {
  import opened Wrappers
  import opened Store
  import QuerySets
  import opened Managers
  import opened SoftDeletableModel

  datatype State = Live | Deleted(at: Time) | Destroyed

  /** The state of the record keyed `id`; a key with no row is Destroyed (or was never created). */
  function StateOf<P>(t: Table<P>, id: Id): (st: State) {
    if id !in t then Destroyed
    else match t[id].deletedAt
      case None => Live
      case Some(at) => Deleted(at)
  }

  /** True when no key other than `id` changes state between `t` and `t2`. */
  ghost predicate OthersUnchanged<P>(t: Table<P>, t2: Table<P>, id: Id) {
    forall other :: other != id ==> StateOf(t2, other) == StateOf(t, other)
  }

  /** A created record starts Live and is visible through `objects`. */
  lemma CreateStartsLive<P(!new)>(t: Table<P>, id: Id, payload: P)
    requires id !in t
    ensures var s := Create(t, id, payload);
      && s.outcome.Success?
      && StateOf(s.outcome.value, id) == Live
      && id in QuerySets.Eval(All(Objects<P>()), s.outcome.value)
      && OthersUnchanged(t, s.outcome.value, id)
  {
  }

  /**
   * `soft_delete()` on a stored record moves it to Deleted at `now` from
   * either Live or Deleted (a second call restamps it); the record leaves
   * the default view and shows in `deleted_only()`, in `all_with_deleted()`
   * and through an unscoped manager.
   */
  lemma SoftDeleteTransition<P(!new)>(inst: Instance<P>, t: Table<P>, now: Time)
    requires inst.pk.Some? && inst.pk.value in t
    ensures var s := SoftDelete(inst, t, now);
      && s.outcome.Success?
      && StateOf(s.outcome.value, inst.pk.value) == Deleted(now)
      && OthersUnchanged(t, s.outcome.value, inst.pk.value)
      && inst.pk.value !in QuerySets.Eval(All(Objects<P>()), s.outcome.value)
      && inst.pk.value in QuerySets.Eval(DeletedOnly(Objects<P>()), s.outcome.value)
      && inst.pk.value in QuerySets.Eval(AllWithDeleted(Objects<P>()), s.outcome.value)
      && inst.pk.value in QuerySets.Eval(All(IntendedAllObjects<P>()), s.outcome.value)
  {
  }

  /** `restore()` on a stored record moves it to Live and back into the default view. */
  lemma RestoreTransition<P(!new)>(inst: Instance<P>, t: Table<P>)
    requires inst.pk.Some? && inst.pk.value in t
    ensures var s := Restore(inst, t);
      && s.outcome.Success?
      && StateOf(s.outcome.value, inst.pk.value) == Live
      && OthersUnchanged(t, s.outcome.value, inst.pk.value)
      && inst.pk.value in QuerySets.Eval(All(Objects<P>()), s.outcome.value)
  {
  }

  /** Restoring a record that is already live leaves the table exactly as it was. */
  lemma RestoreIsIdempotentOnLive<P>(inst: Instance<P>, t: Table<P>)
    requires inst.pk.Some? && StateOf(t, inst.pk.value) == Live
    ensures Restore(inst, t).outcome == Success(t)
  {
    var id := inst.pk.value;
    var t2 := Restore(inst, t).outcome.value;
    assert t2[id] == t[id];
    assert t2 == t;
  }

  /**
   * `soft_delete()` then `restore()` makes the record visible through
   * `objects` again with `deleted_at` null; on a record that was live, the
   * table comes back exactly.
   */
  lemma SoftDeleteThenRestore<P(!new)>(inst: Instance<P>, t: Table<P>, now: Time)
    requires inst.pk.Some? && inst.pk.value in t
    ensures var s1 := SoftDelete(inst, t, now);
      && s1.outcome.Success?
      && var s2 := Restore(s1.instance, s1.outcome.value);
      && s2.outcome.Success?
      && s2.instance.deletedAt == None
      && s2.outcome.value[inst.pk.value].deletedAt == None
      && inst.pk.value in QuerySets.Eval(All(Objects<P>()), s2.outcome.value)
      && (t[inst.pk.value].IsLive() ==> s2.outcome.value == t)
  {
  }

  /**
   * `hard_delete()` on a record with a key moves it to Destroyed: it is gone
   * from `objects`, from `all_with_deleted()`, from `deleted_only()` and from
   * an unscoped manager.
   */
  lemma HardDeleteTransition<P(!new)>(inst: Instance<P>, t: Table<P>)
    requires inst.pk.Some?
    ensures var s := HardDelete(inst, t);
      && s.outcome.Success?
      && StateOf(s.outcome.value, inst.pk.value) == Destroyed
      && OthersUnchanged(t, s.outcome.value, inst.pk.value)
      && inst.pk.value !in QuerySets.Eval(All(Objects<P>()), s.outcome.value)
      && inst.pk.value !in QuerySets.Eval(AllWithDeleted(Objects<P>()), s.outcome.value)
      && inst.pk.value !in QuerySets.Eval(DeletedOnly(Objects<P>()), s.outcome.value)
      && inst.pk.value !in QuerySets.Eval(All(IntendedAllObjects<P>()), s.outcome.value)
  {
  }

  /**
   * Destroyed is terminal for a record, seen from another object that still
   * holds its key: with the row gone, soft delete, restore and the `delete`
   * override all raise, and a second hard delete changes nothing.
   */
  lemma DestroyedIsTerminal<P>(inst: Instance<P>, t: Table<P>, now: Time, using: Option<string>, keepParents: bool)
    requires inst.pk.Some? && StateOf(t, inst.pk.value) == Destroyed
    ensures SoftDelete(inst, t, now).outcome == Failure(NoRowsAffected)
    ensures Restore(inst, t).outcome == Failure(NoRowsAffected)
    ensures Delete(inst, t, now, using, keepParents).outcome == Failure(NoRowsAffected)
    ensures HardDelete(inst, t).outcome == Success(t)
  {
    assert t - {inst.pk.value} == t;
  }

  /**
   * The object `hard_delete()` was called on has lost its key, so every
   * further soft delete, restore, `delete` or hard delete on it raises.
   */
  lemma HardDeletedObjectIsSpent<P>(inst: Instance<P>, t: Table<P>, now: Time, using: Option<string>, keepParents: bool)
    requires inst.pk.Some?
    ensures var h := HardDelete(inst, t);
      && h.outcome.Success?
      && SoftDelete(h.instance, h.outcome.value, now).outcome == Failure(NoPrimaryKey)
      && Restore(h.instance, h.outcome.value).outcome == Failure(NoPrimaryKey)
      && Delete(h.instance, h.outcome.value, now, using, keepParents).outcome == Failure(NoPrimaryKey)
      && HardDelete(h.instance, h.outcome.value).outcome == Failure(NoPrimaryKey)
  {
  }

  /** The `delete` override ignores both of its arguments and behaves as `soft_delete()`. */
  lemma DeleteIsSoftDelete<P>(inst: Instance<P>, t: Table<P>, now: Time, using: Option<string>, keepParents: bool)
    ensures Delete(inst, t, now, using, keepParents) == SoftDelete(inst, t, now)
    ensures Delete(inst, t, now, using, keepParents) == Delete(inst, t, now, None, false)
  {
  }

  /**
   * Counting through `objects` and `all_with_deleted()`: soft-deleting a live
   * record lowers the `objects` count by one and leaves the
   * `all_with_deleted()` count alone; restoring it brings the `objects` count
   * back.
   */
  lemma SoftDeleteCounts<P(!new)>(inst: Instance<P>, t: Table<P>, now: Time)
    requires inst.pk.Some? && StateOf(t, inst.pk.value) == Live
    ensures var s1 := SoftDelete(inst, t, now);
      && s1.outcome.Success?
      && |QuerySets.Eval(All(Objects<P>()), s1.outcome.value)| == |QuerySets.Eval(All(Objects<P>()), t)| - 1
      && |QuerySets.Eval(AllWithDeleted(Objects<P>()), s1.outcome.value)| == |QuerySets.Eval(AllWithDeleted(Objects<P>()), t)|
      && var s2 := Restore(s1.instance, s1.outcome.value);
      && s2.outcome.Success?
      && |QuerySets.Eval(All(Objects<P>()), s2.outcome.value)| == |QuerySets.Eval(All(Objects<P>()), t)|
  {
    var id := inst.pk.value;
    var t1 := SoftDelete(inst, t, now).outcome.value;
    DefaultViewIsLiveRows(Objects<P>(), t);
    DefaultViewIsLiveRows(Objects<P>(), t1);
    assert LiveIds(t1) == LiveIds(t) - {id} by {
      forall other | other in t
        ensures other in LiveIds(t1) <==> other in LiveIds(t) - {id}
      {
        if other == id { assert t1[id].deletedAt == Some(now); }
      }
    }
    assert |QuerySets.Eval(All(Objects<P>()), t1).Keys| == |QuerySets.Eval(All(Objects<P>()), t).Keys| - 1;
    AllWithDeletedIsTable(Objects<P>(), t);
    AllWithDeletedIsTable(Objects<P>(), t1);
    SoftDeleteThenRestore(inst, t, now);
  }

  /**
   * Bulk `delete()` on a queryset matching a set S of records: each of S,
   * live or already deleted, becomes deleted at `now` and no other record
   * changes state.
   */
  lemma BulkDeleteStates<P(!new)>(qs: QuerySets.QuerySet<P>, t: Table<P>, now: Time)
    ensures var S := QuerySets.Eval(qs, t).Keys;
      var t2 := QuerySets.Delete(qs, t, now).table;
      && (forall id :: id in S ==> StateOf(t2, id) == Deleted(now))
      && (forall id :: id !in S ==> StateOf(t2, id) == StateOf(t, id))
      && DeadIds(t2) == DeadIds(t) + S
      && LiveIds(t2) == LiveIds(t) - S
  {
  }

  /**
   * Seen through the managers, the same bulk delete moves exactly S from the
   * live rows of `all_with_deleted()` into `deleted_only()`.
   */
  lemma BulkDeleteViews<P(!new)>(qs: QuerySets.QuerySet<P>, t: Table<P>, now: Time)
    ensures var S := QuerySets.Eval(qs, t).Keys;
      var t2 := QuerySets.Delete(qs, t, now).table;
      && QuerySets.Eval(DeletedOnly(Objects<P>()), t2).Keys == QuerySets.Eval(DeletedOnly(Objects<P>()), t).Keys + S
      && QuerySets.Eval(QuerySets.Alive(AllWithDeleted(Objects<P>())), t2).Keys == QuerySets.Eval(All(Objects<P>()), t).Keys - S
  {
  }

  /**
   * The bulk and per-record paths are written separately, yet they agree:
   * bulk `delete()` or `restore()` on the queryset selecting one stored
   * record writes the same table as that record's own operation.
   */
  lemma BulkAgreesWithRecord<P(!new)>(inst: Instance<P>, t: Table<P>, now: Time)
    requires inst.pk.Some? && inst.pk.value in t
    ensures var one := QuerySets.Filter(AllWithDeleted(Objects<P>()), (id: Id, row: Row<P>) => id == inst.pk.value);
      && QuerySets.Delete(one, t, now) == QuerySets.Written(SoftDelete(inst, t, now).outcome.value, 1)
      && QuerySets.Restore(one, t) == QuerySets.Written(Restore(inst, t).outcome.value, 1)
  {
    var pk := inst.pk.value;
    var one := QuerySets.Filter(AllWithDeleted(Objects<P>()), (id: Id, row: Row<P>) => id == pk);
    assert QuerySets.Eval(one, t).Keys == {pk};
    var b := QuerySets.Delete(one, t, now).table;
    var r := SoftDelete(inst, t, now).outcome.value;
    assert b == r by {
      forall id | id in t ensures b[id] == r[id] {
        if id == pk { assert QuerySets.Matches(one, id, t[id]); } else { assert !QuerySets.Matches(one, id, t[id]); }
      }
    }
    var b2 := QuerySets.Restore(one, t).table;
    var r2 := Restore(inst, t).outcome.value;
    assert b2 == r2 by {
      forall id | id in t ensures b2[id] == r2[id] {
        if id == pk { assert QuerySets.Matches(one, id, t[id]); } else { assert !QuerySets.Matches(one, id, t[id]); }
      }
    }
  }
}
