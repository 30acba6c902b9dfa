/**
 * `AbstractSoftDeletableModel`: the per-record side of soft deletion. An
 * instance is the in-memory object; its operations set `deleted_at` on the
 * object first and then write that one column to the stored row.
 */
module SoftDeletableModel {
  import opened Wrappers
  import opened Store
  import opened QuerySets
  import opened Managers

  /** An in-memory record: its primary key (if saved), `deleted_at`, and every other field. */
  datatype Instance<P> = Instance(pk: Option<Id>, deletedAt: Option<Time>, payload: P)

  /** The exceptions the record operations can raise from the persistence layer. */
  datatype Error =
    | NoPrimaryKey     // the object has no primary key, so no row can be named
    | NoRowsAffected   // a save restricted to `deleted_at` found no row to update
    | DuplicateKey     // an insert clashed with an existing primary key

  /**
   * The effect of a record operation: the in-memory object afterwards, which
   * is changed even when the write raises, and the new table or the error.
   */
  datatype Step<P> = Step(instance: Instance<P>, outcome: Result<Table<P>, Error>)

  /** The default manager, `objects`: its queries see only the live rows. */
  function Objects<P(!new)>(): (m: Manager<P>)
    ensures m.SoftDeleteManager?
    ensures forall id, row :: Matches(GetQueryset(m), id, row) <==> row.deletedAt == None
  {
    SoftDeleteManager
  }

  /** `all_objects`: declared as a second soft-delete manager, so it hides deleted rows too. */
  function AllObjects<P(!new)>(): (m: Manager<P>)
    ensures m.SoftDeleteManager?
    ensures forall id, row :: Matches(GetQueryset(m), id, row) <==> row.deletedAt == None
  {
    SoftDeleteManager
  }

  /** The manager `all_objects` is documented to be: one that hides nothing. */
  function IntendedAllObjects<P>(): (m: Manager<P>) {
    PlainManager
  }

  /** `t2` is `t` with only the `deleted_at` column of row `id` replaced by `v`. */
  ghost predicate OnlyDeletedAtWritten<P>(t: Table<P>, t2: Table<P>, id: Id, v: Option<Time>)
    requires id in t
  {
    && t2.Keys == t.Keys
    && t2[id].deletedAt == v
    && t2[id].payload == t[id].payload
    && forall other :: other in t && other != id ==> t2[other] == t[other]
  }

  /**
   * Inserting a new record with the caller-chosen key `id`. `deleted_at` is
   * nullable and not supplied, so it is stored as null.
   */
  function Create<P>(t: Table<P>, id: Id, payload: P): (s: Step<P>)
    ensures s.instance.pk == Some(id) && s.instance.deletedAt == None && s.instance.payload == payload
    ensures s.outcome.Failure? <==> id in t
    ensures s.outcome.Failure? ==> s.outcome.error == DuplicateKey
    ensures s.outcome.Success? ==>
      && s.outcome.value.Keys == t.Keys + {id}
      && s.outcome.value[id].IsLive()
      && s.outcome.value[id].payload == payload
      && forall other :: other in t ==> s.outcome.value[other] == t[other]
  {
    var inst := Instance(Some(id), None, payload);
    if id in t then Step(inst, Failure(DuplicateKey))
    else Step(inst, Success(t[id := Row(None, payload)]))
  }

  /**
   * `save(update_fields=["deleted_at"])`: writes the object's `deleted_at`
   * into its stored row and touches no other column. The write goes through
   * the unscoped base manager, so a soft-deleted row is found as well.
   */
  function SaveDeletedAt<P>(inst: Instance<P>, t: Table<P>): (r: Result<Table<P>, Error>)
    ensures inst.pk.None? ==> r == Failure(NoPrimaryKey)
    ensures inst.pk.Some? && inst.pk.value !in t ==> r == Failure(NoRowsAffected)
    ensures r.Success? <==> inst.pk.Some? && inst.pk.value in t
    ensures r.Success? ==> OnlyDeletedAtWritten(t, r.value, inst.pk.value, inst.deletedAt)
  {
    match inst.pk
    case None => Failure(NoPrimaryKey)
    case Some(id) =>
      if id !in t then Failure(NoRowsAffected)
      else Success(t[id := Row(inst.deletedAt, t[id].payload)])
  }

  /** `soft_delete()`: stamps the object with `now` and saves that column alone. */
  function SoftDelete<P>(inst: Instance<P>, t: Table<P>, now: Time): (s: Step<P>)
    ensures s.instance.pk == inst.pk && s.instance.payload == inst.payload
    ensures s.instance.deletedAt == Some(now)
    ensures s.outcome.Success? <==> inst.pk.Some? && inst.pk.value in t
    ensures s.outcome.Success? ==> OnlyDeletedAtWritten(t, s.outcome.value, inst.pk.value, Some(now))
  {
    var stamped := inst.(deletedAt := Some(now));
    Step(stamped, SaveDeletedAt(stamped, t))
  }

  /** `restore()`: clears the object's `deleted_at` and saves that column alone. */
  function Restore<P>(inst: Instance<P>, t: Table<P>): (s: Step<P>)
    ensures s.instance.pk == inst.pk && s.instance.payload == inst.payload
    ensures s.instance.deletedAt == None
    ensures s.outcome.Success? <==> inst.pk.Some? && inst.pk.value in t
    ensures s.outcome.Success? ==> OnlyDeletedAtWritten(t, s.outcome.value, inst.pk.value, None)
  {
    var cleared := inst.(deletedAt := None);
    Step(cleared, SaveDeletedAt(cleared, t))
  }

  /**
   * `hard_delete()`: the framework's own `delete()`, which removes the row
   * and then clears the object's primary key. An object with no primary key
   * cannot be deleted; a key with no row removes nothing and raises nothing.
   */
  function HardDelete<P>(inst: Instance<P>, t: Table<P>): (s: Step<P>)
    ensures inst.pk.None? ==> s.instance == inst && s.outcome == Failure(NoPrimaryKey)
    ensures inst.pk.Some? ==>
      && s.instance.pk == None
      && s.instance.deletedAt == inst.deletedAt
      && s.instance.payload == inst.payload
      && s.outcome.Success?
      && s.outcome.value.Keys == t.Keys - {inst.pk.value}
      && forall id :: id in s.outcome.value ==> s.outcome.value[id] == t[id]
  {
    match inst.pk
    case None => Step(inst, Failure(NoPrimaryKey))
    case Some(id) => Step(inst.(pk := None), Success(t - {id}))
  }

  /**
   * The `delete(using, keep_parents)` override: both arguments are ignored and
   * the call is a soft delete, so the row is never removed.
   */
  function Delete<P>(inst: Instance<P>, t: Table<P>, now: Time, using: Option<string>, keepParents: bool): (s: Step<P>)
    ensures s.instance.pk == inst.pk && s.instance.payload == inst.payload
    ensures s.instance.deletedAt == Some(now)
    ensures s.outcome.Success? <==> inst.pk.Some? && inst.pk.value in t
    ensures s.outcome.Success? ==> s.outcome.value.Keys == t.Keys
    ensures s.outcome.Success? ==> OnlyDeletedAtWritten(t, s.outcome.value, inst.pk.value, Some(now))
  {
    SoftDelete(inst, t, now)
  }

  /** `all_objects.all()` filters exactly as `objects.all()` does, so it returns only the live rows. */
  lemma AllObjectsHidesDeleted<P(!new)>(t: Table<P>)
    ensures Eval(All(AllObjects<P>()), t) == Eval(All(Objects<P>()), t)
    ensures Eval(All(AllObjects<P>()), t).Keys == LiveIds(t)
  {
  }

  /** A table with one soft-deleted row that `all_objects.all()` leaves out. */
  lemma AllObjectsMissesDeletedRow()
    ensures var t: Table<int> := map[7 := Row(Some(0), 0)];
      7 in t && 7 !in Eval(All(AllObjects<int>()), t)
  {
  }

  /**
   * The documented `all_objects`: an unscoped manager whose `all()` returns
   * every row, the same rows as `all_with_deleted()`.
   */
  lemma IntendedAllObjectsSeesEverything<P(!new)>(t: Table<P>)
    ensures Eval(All(IntendedAllObjects<P>()), t) == t
    ensures Eval(All(IntendedAllObjects<P>()), t) == Eval(AllWithDeleted(Objects<P>()), t)
  {
  }
}
